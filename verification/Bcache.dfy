/** The buffer cache of bio.c over the memory disk of memide.c: a ring of buffers through prev and
    next, reference counts, recycling of the least recently released buffer, and the contents seen
    through the cache. Buffers are numbered from 1; 0 is the list head. */
module Bcache {

  type Data = seq<int>

  // ---------- the ring ----------

  /** The element at place `i` of the ring, the head closing it on both sides. */
  ghost function At(order: seq<nat>, i: int): nat {
    if 0 <= i < |order| then order[i] else 0
  }

  /** The elements at places `i` and `i + 1` point at each other. */
  ghost predicate Link(next: seq<nat>, prev: seq<nat>, order: seq<nat>, i: int)
    requires |next| == |prev|
  {
    var x, y := At(order, i), At(order, i + 1);
    x < |next| && y < |next| && next[x] == y && prev[y] == x
  }

  /** prev and next link the head and the buffers of `order`, in that order, into one ring; `pos` is
      the place of each buffer. */
  ghost predicate Ring(next: seq<nat>, prev: seq<nat>, order: seq<nat>, pos: seq<nat>) {
    && |next| == |prev| == |pos| > 0
    && (forall i :: 0 <= i < |order| ==> 0 < order[i] < |next| && pos[order[i]] == i)
    && (forall i :: -1 <= i < |order| ==> Link(next, prev, order, i))
  }

  ghost function Without(order: seq<nat>, i: nat): seq<nat>
    requires i < |order|
  {
    order[..i] + order[i + 1..]
  }

  /** Places after removing the buffer at place `i`. */
  ghost function Closed(pos: seq<nat>, i: nat): (r: seq<nat>)
    ensures |r| == |pos|
  {
    seq(|pos|, x requires 0 <= x < |pos| => if pos[x] > i then pos[x] - 1 else pos[x])
  }

  /** Places after inserting `b` at the front. */
  ghost function Shifted(pos: seq<nat>, b: nat): (r: seq<nat>)
    requires b < |pos|
    ensures |r| == |pos|
  {
    seq(|pos|, x requires 0 <= x < |pos| => if x == b then 0 else pos[x] + 1)
  }

  lemma AtWithout(order: seq<nat>, i: nat, k: int)
    requires i < |order| && -1 <= k < |order|
    ensures At(Without(order, i), k) == if k < i then At(order, k) else At(order, k + 1)
  {}

  /** Only the same place holds the same element, whether the head is counted first or last. */
  lemma Place(next: seq<nat>, prev: seq<nat>, order: seq<nat>, pos: seq<nat>, i: int, j: int)
    requires Ring(next, prev, order, pos) && -1 <= i <= |order| && -1 <= j <= |order| && At(order, i) == At(order, j)
    ensures i == j || {i, j} == {-1, |order|}
  {
    if 0 <= i < |order| && 0 <= j < |order| { assert pos[order[i]] == i && pos[order[j]] == j; }
  }

  /** Taking a buffer out of the ring. */
  lemma Unlink(next: seq<nat>, prev: seq<nat>, order: seq<nat>, pos: seq<nat>, i: nat)
    requires Ring(next, prev, order, pos) && i < |order|
    ensures var b := order[i];
            && b < |next| && next[b] < |prev| && prev[b] < |next|
            && Ring(next[prev[b] := next[b]], prev[next[b] := prev[b]], Without(order, i), Closed(pos, i))
  {
    var b := order[i];
    assert Link(next, prev, order, i) && Link(next, prev, order, i - 1);
    var o := Without(order, i);
    var n', p' := next[prev[b] := next[b]], prev[next[b] := prev[b]];
    forall k | 0 <= k < |o| ensures 0 < o[k] < |next| && Closed(pos, i)[o[k]] == k {
      assert o[k] == order[if k < i then k else k + 1];
    }
    forall k | -1 <= k < |o| ensures Link(n', p', o, k) {
      UnlinkAt(next, prev, order, pos, i, k);
    }
  }

  lemma UnlinkAt(next: seq<nat>, prev: seq<nat>, order: seq<nat>, pos: seq<nat>, i: nat, k: int)
    requires Ring(next, prev, order, pos) && i < |order| && -1 <= k < |order| - 1
    ensures var b := order[i];
            b < |next| && next[b] < |prev| && prev[b] < |next|
              && Link(next[prev[b] := next[b]], prev[next[b] := prev[b]], Without(order, i), k)
  {
    assert Link(next, prev, order, i) && Link(next, prev, order, i - 1);
    AtWithout(order, i, k);
    AtWithout(order, i, k + 1);
    hide Without;
    if k + 1 != i {
      var j := if k < i then k else k + 1;
      assert Link(next, prev, order, j);
      if At(order, j) == At(order, i - 1) { Place(next, prev, order, pos, j, i - 1); }
      if At(order, j + 1) == At(order, i + 1) { Place(next, prev, order, pos, j + 1, i + 1); }
    }
  }

  /** Putting a buffer that is not in the ring at its front. */
  lemma Push(next: seq<nat>, prev: seq<nat>, order: seq<nat>, pos: seq<nat>, b: nat)
    requires Ring(next, prev, order, pos) && 0 < b < |next| && b !in order
    ensures next[0] < |prev|
    ensures Ring(next[b := next[0]][0 := b], prev[b := 0][next[0] := b], [b] + order, Shifted(pos, b))
  {
    assert Link(next, prev, order, -1);
    var o := [b] + order;
    var n', p' := next[b := next[0]][0 := b], prev[b := 0][next[0] := b];
    forall k | 0 <= k < |o| ensures 0 < o[k] < |next| && Shifted(pos, b)[o[k]] == k {
      if k > 0 { assert o[k] == order[k - 1]; }
    }
    forall k | -1 <= k < |o| ensures Link(n', p', o, k) {
      if k > 0 {
        assert At(o, k) == At(order, k - 1) && At(o, k + 1) == At(order, k);
        assert Link(next, prev, order, k - 1);
        if At(order, k) == At(order, 0) { Place(next, prev, order, pos, k, 0); }
      } else {
        assert At(o, 0) == b && At(o, 1) == At(order, 0) && At(o, -1) == 0;
      }
    }
  }

  /** All buffers are in the ring. */
  ghost predicate Whole(next: seq<nat>, prev: seq<nat>, order: seq<nat>, pos: seq<nat>) {
    && Ring(next, prev, order, pos) && |order| == |next| - 1
    && (forall b :: 0 < b < |pos| ==> pos[b] < |order| && order[pos[b]] == b)
  }

  ghost function Front(order: seq<nat>, pos: seq<nat>, b: nat): seq<nat>
    requires b < |pos| && pos[b] < |order|
  {
    [b] + Without(order, pos[b])
  }

  /** What brelse's six assignments do to the links. */
  function FrontNext(next: seq<nat>, prev: seq<nat>, b: nat): seq<nat>
    requires b < |next| == |prev| && prev[b] < |next|
  {
    var next1 := next[prev[b] := next[b]];
    next1[b := next1[0]][0 := b]
  }

  function FrontPrev(next: seq<nat>, prev: seq<nat>, b: nat): seq<nat>
    requires b < |next| == |prev| && prev[b] < |next| && next[b] < |next| && next[0] < |next|
  {
    var next1 := next[prev[b] := next[b]];
    prev[next[b] := prev[b]][b := 0][next1[0] := b]
  }

  /** brelse keeps all buffers in one ring and moves `b` to its front, the others keeping their order. */
  lemma MoveToFront(next: seq<nat>, prev: seq<nat>, order: seq<nat>, pos: seq<nat>, b: nat)
    requires Whole(next, prev, order, pos) && 0 < b < |next|
    ensures next[b] < |next| && prev[b] < |next| && next[0] < |next|
    ensures Whole(FrontNext(next, prev, b), FrontPrev(next, prev, b), Front(order, pos, b),
                  Shifted(Closed(pos, pos[b]), b))
  {
    var i := pos[b];
    Unlink(next, prev, order, pos, i);
    var o, q := Without(order, i), Closed(pos, i);
    assert Link(next, prev, order, -1);
    forall k | 0 <= k < |o| ensures o[k] != b { assert o[k] == order[if k < i then k else k + 1]; }
    Push(next[prev[b] := next[b]], prev[next[b] := prev[b]], o, q, b);
    var o', q' := [b] + o, Shifted(q, b);
    forall c | 0 < c < |q'| ensures q'[c] < |o'| && o'[q'[c]] == c {
      assert order[pos[c]] == c;
    }
    hide Ring;
  }

  // ---------- recency ----------

  /** From the front of the ring to its back, buffers were released ever longer ago. */
  ghost predicate Recent(order: seq<nat>, stamp: seq<nat>, clock: nat) {
    && (forall i :: 0 <= i < |order| ==> order[i] < |stamp| && stamp[order[i]] < clock)
    && (forall i, j :: 0 <= i < j < |order| ==> stamp[order[i]] > stamp[order[j]])
  }

  lemma Released(order: seq<nat>, pos: seq<nat>, stamp: seq<nat>, clock: nat, b: nat)
    requires Recent(order, stamp, clock) && b < |pos| && b < |stamp| && pos[b] < |order| && order[pos[b]] == b
    requires forall i :: 0 <= i < |order| && i != pos[b] ==> order[i] != b
    ensures Recent(Front(order, pos, b), stamp[b := clock], clock + 1)
  {
    var o := Front(order, pos, b);
    forall k | 0 < k < |o| ensures o[k] == order[if k - 1 < pos[b] then k - 1 else k] {}
  }

  // ---------- names and contents ----------

  const ROOTDEV := 1 // the only disk memide serves

  datatype Buf = Buf(dev: nat, blockno: nat, refcnt: nat, valid: bool, dirty: bool, data: Data)

  /** At most one buffer names a block of a nonzero device. */
  ghost predicate Unique(bufs: seq<Buf>) {
    forall b, c :: 0 < b < |bufs| && 0 < c < |bufs| && bufs[b].dev != 0 && bufs[b].dev == bufs[c].dev
                   && bufs[b].blockno == bufs[c].blockno ==>
      b == c
  }

  /** Buffer `b` agrees with what the cache shows, and a buffer nobody uses or pins with the disk. */
  ghost predicate BufOk(bufs: seq<Buf>, disk: seq<Data>, home: seq<nat>, b: nat)
    requires b < |bufs| && |home| == |disk|
  {
    var x := bufs[b];
    && (x.valid ==> x.dev == ROOTDEV && x.blockno < |disk| && home[x.blockno] == b)
    && (x.dirty ==> x.valid)
    && (x.valid && x.refcnt == 0 && !x.dirty ==> x.data == disk[x.blockno])
  }

  /** Block `k` seen through the cache: the buffer that holds it, or else the disk. */
  ghost predicate BlockOk(bufs: seq<Buf>, disk: seq<Data>, seen: seq<Data>, home: seq<nat>, k: nat)
    requires k < |disk| == |seen| == |home|
  {
    && home[k] < |bufs|
    && (home[k] != 0 ==> bufs[home[k]].valid && bufs[home[k]].blockno == k)
    && seen[k] == if home[k] == 0 then disk[k] else bufs[home[k]].data
  }

  ghost predicate Shown(bufs: seq<Buf>, disk: seq<Data>, seen: seq<Data>, home: seq<nat>) {
    && |disk| == |seen| == |home|
    && (forall b :: 0 < b < |bufs| ==> BufOk(bufs, disk, home, b))
    && (forall k :: 0 <= k < |disk| ==> BlockOk(bufs, disk, seen, home, k))
  }

  predicate Idle(x: Buf) { x.refcnt == 0 && !x.dirty }

  /** Where blocks are held once buffer `b` has been given another name. */
  ghost function Evicted(home: seq<nat>, x: Buf): seq<nat> {
    if x.valid && x.blockno < |home| then home[x.blockno := 0] else home
  }

  /** Recycling an idle buffer loses nothing. */
  lemma Recycle(bufs: seq<Buf>, disk: seq<Data>, seen: seq<Data>, home: seq<nat>, b: nat, dev: nat, blockno: nat)
    requires Shown(bufs, disk, seen, home) && Unique(bufs) && 0 < b < |bufs| && Idle(bufs[b])
    requires forall c :: 0 < c < |bufs| ==> !(bufs[c].dev == dev && bufs[c].blockno == blockno)
    ensures var bufs' := bufs[b := Buf(dev, blockno, 1, false, false, bufs[b].data)];
            Unique(bufs') && Shown(bufs', disk, seen, Evicted(home, bufs[b]))
  {
    var bufs' := bufs[b := Buf(dev, blockno, 1, false, false, bufs[b].data)];
    var home' := Evicted(home, bufs[b]);
    assert BufOk(bufs, disk, home, b);
    forall c | 0 < c < |bufs'| ensures BufOk(bufs', disk, home', c) { assert BufOk(bufs, disk, home, c); }
    forall k | 0 <= k < |disk|
      ensures BlockOk(bufs', disk, seen, home', k)
    {
      assert BlockOk(bufs, disk, seen, home, k);
    }
  }

  /** Reading a block into a buffer that has its name. */
  lemma Fetch(bufs: seq<Buf>, disk: seq<Data>, seen: seq<Data>, home: seq<nat>, b: nat)
    requires Shown(bufs, disk, seen, home) && Unique(bufs) && 0 < b < |bufs|
    requires !bufs[b].valid && bufs[b].dev == ROOTDEV && bufs[b].blockno < |disk|
    ensures var k := bufs[b].blockno;
            var bufs' := bufs[b := bufs[b].(valid := true, data := disk[k])];
            Unique(bufs') && Shown(bufs', disk, seen, home[k := b]) && disk[k] == seen[k]
  {
    var k := bufs[b].blockno;
    var bufs' := bufs[b := bufs[b].(valid := true, data := disk[k])];
    var home' := home[k := b];
    assert BlockOk(bufs, disk, seen, home, k);
    assert home[k] == 0 || BufOk(bufs, disk, home, home[k]);
    forall c | 0 < c < |bufs'| ensures BufOk(bufs', disk, home', c) { assert BufOk(bufs, disk, home, c); }
    forall j | 0 <= j < |disk|
      ensures BlockOk(bufs', disk, seen, home', j)
    {
      assert BlockOk(bufs, disk, seen, home, j);
    }
  }

  /** A buffer in use changes its count, its pin or its data, and the disk follows. */
  lemma Update(bufs: seq<Buf>, disk: seq<Data>, seen: seq<Data>, home: seq<nat>, b: nat, x: Buf, write: bool)
    requires Shown(bufs, disk, seen, home) && Unique(bufs) && 0 < b < |bufs| && bufs[b].valid
    requires x.dev == bufs[b].dev && x.blockno == bufs[b].blockno && x.valid
    requires x.refcnt == 0 && !x.dirty && bufs[b].blockno < |disk| ==> write || x.data == disk[bufs[b].blockno]
    ensures bufs[b].blockno < |disk| == |seen|
    ensures var k := bufs[b].blockno;
            Unique(bufs[b := x]) && Shown(bufs[b := x], if write then disk[k := x.data] else disk, seen[k := x.data],
                                          home)
  {
    assert BufOk(bufs, disk, home, b);
    var k := bufs[b].blockno;
    var bufs', disk', seen' := bufs[b := x], if write then disk[k := x.data] else disk, seen[k := x.data];
    forall c | 0 < c < |bufs'| ensures BufOk(bufs', disk', home, c) { assert BufOk(bufs, disk, home, c); }
    forall j | 0 <= j < |disk'|
      ensures BlockOk(bufs', disk', seen', home, j)
    {
      assert BlockOk(bufs, disk, seen, home, j);
    }
  }

  /** A buffer whose read has not happened yet only changes its count. */
  lemma Recount(bufs: seq<Buf>, disk: seq<Data>, seen: seq<Data>, home: seq<nat>, b: nat, n: nat)
    requires Shown(bufs, disk, seen, home) && Unique(bufs) && 0 < b < |bufs|
    requires bufs[b].valid && n == 0 && !bufs[b].dirty && bufs[b].blockno < |disk| ==>
             bufs[b].data == disk[bufs[b].blockno]
    ensures Unique(bufs[b := bufs[b].(refcnt := n)]) && Shown(bufs[b := bufs[b].(refcnt := n)], disk, seen, home)
  {
    var bufs' := bufs[b := bufs[b].(refcnt := n)];
    assert BufOk(bufs, disk, home, b);
    forall c | 0 < c < |bufs'| ensures BufOk(bufs', disk, home, c) { assert BufOk(bufs, disk, home, c); }
    forall j | 0 <= j < |disk|
      ensures BlockOk(bufs', disk, seen, home, j)
    {
      assert BlockOk(bufs, disk, seen, home, j);
    }
  }

  // ---------- bio.c ----------

  /** No idle buffer was released longer ago than `b`. */
  ghost predicate LeastRecent(bufs: seq<Buf>, stamp: seq<nat>, b: nat) {
    && 0 < b < |bufs| == |stamp| && Idle(bufs[b])
    && (forall c :: 0 < c < |bufs| && Idle(bufs[c]) ==> stamp[b] <= stamp[c])
  }

  predicate Named(x: Buf, dev: nat, blockno: nat) { x.dev == dev && x.blockno == blockno }

  class Cache {
    var next: seq<nat>
    var prev: seq<nat>
    var bufs: seq<Buf>
    var disk: seq<Data>
    ghost var order: seq<nat>
    ghost var pos: seq<nat>
    ghost var stamp: seq<nat> // when each buffer was last released
    ghost var clock: nat
    ghost var seen: seq<Data> // the disk as seen through the cache
    ghost var home: seq<nat>

    ghost predicate Valid() reads this {
      && |bufs| == |next| == |stamp| && Whole(next, prev, order, pos) && Recent(order, stamp, clock)
      && Unique(bufs) && Shown(bufs, disk, seen, home)
    }

    /** binit: each buffer in turn is put at the front of the ring. */
    constructor (n: nat, image: seq<Data>)
      ensures Valid() && |bufs| == n + 1 && disk == image && seen == image
    {
      next, prev := seq(n + 1, i => 0), seq(n + 1, i => 0);
      bufs := seq(n + 1, i => Buf(0, 0, 0, false, false, []));
      disk, seen, home := image, image, seq(|image|, i => 0);
      order, pos := [], seq(n + 1, i => 0);
      stamp, clock := seq(n + 1, i => i), n + 1;
      new;
      assert Link(next, prev, order, -1);
      var b := 1;
      while b <= n
        invariant 1 <= b <= n + 1 && |next| == n + 1 && Ring(next, prev, order, pos)
        invariant |order| == b - 1 && forall i :: 0 <= i < |order| ==> order[i] == b - 1 - i
        modifies this`next, this`prev, this`order, this`pos
      {
        Push(next, prev, order, pos, b);
        next, prev := next[b := next[0]], prev[b := 0];
        prev := prev[next[0] := b];
        next := next[0 := b];
        order, pos := [b] + order, Shifted(pos, b);
        b := b + 1;
      }
      forall c | 0 < c < |pos| ensures pos[c] < |order| && order[pos[c]] == c { assert order[n - c] == c; }
    }

    /** bget's first loop. */
    method Lookup(dev: nat, blockno: nat) returns (b: nat)
      requires Valid()
      ensures b < |bufs|
      ensures b != 0 ==> Named(bufs[b], dev, blockno)
      ensures b == 0 ==> forall c :: 0 < c < |bufs| ==> !Named(bufs[c], dev, blockno)
    {
      assert Link(next, prev, order, -1);
      b := next[0];
      ghost var i := 0;
      while b != 0
        invariant 0 <= i <= |order| && b == At(order, i)
        invariant forall j :: 0 <= j < i ==> !Named(bufs[order[j]], dev, blockno)
        decreases |order| - i
      {
        assert Link(next, prev, order, i);
        if bufs[b].dev == dev && bufs[b].blockno == blockno { return; }
        b := next[b];
        i := i + 1;
      }
      forall c | 0 < c < |bufs| ensures !Named(bufs[c], dev, blockno) { assert order[pos[c]] == c; }
    }

    /** bget's second loop, from the back of the ring. */
    method Victim() returns (b: nat)
      requires Valid()
      ensures b < |bufs|
      ensures b != 0 ==> LeastRecent(bufs, stamp, b)
      ensures b == 0 ==> forall c :: 0 < c < |bufs| ==> !Idle(bufs[c])
    {
      ghost var i := |order| - 1;
      assert Link(next, prev, order, i);
      b := prev[0];
      while b != 0
        invariant -1 <= i < |order| && b == At(order, i)
        invariant forall j :: i < j < |order| ==> !Idle(bufs[order[j]])
        decreases i
      {
        assert Link(next, prev, order, i - 1);
        if bufs[b].refcnt == 0 && !bufs[b].dirty {
          forall c | 0 < c < |bufs| && Idle(bufs[c]) ensures stamp[b] <= stamp[c] { assert order[pos[c]] == c; }
          return;
        }
        b := prev[b];
        i := i - 1;
      }
      forall c | 0 < c < |bufs| ensures !Idle(bufs[c]) { assert order[pos[c]] == c; }
    }

    /** Find or recycle a buffer for a block; 0 is the "no buffers" panic. */
    method Bget(dev: nat, blockno: nat) returns (b: nat)
      requires Valid()
      modifies this`bufs, this`home
      ensures Valid() && b < |bufs| == old(|bufs|)
      ensures b == 0 ==>
                bufs == old(bufs) && forall c :: 0 < c < |bufs| ==> !Named(bufs[c], dev, blockno) && !Idle(bufs[c])
      ensures b != 0 && Named(old(bufs)[b], dev, blockno) ==>
              bufs == old(bufs)[b := old(bufs)[b].(refcnt := old(bufs)[b].refcnt + 1)]
      ensures b != 0 && !Named(old(bufs)[b], dev, blockno) ==>
                && (forall c :: 0 < c < |bufs| ==> !Named(old(bufs)[c], dev, blockno))
                   && LeastRecent(old(bufs), stamp, b)
                && bufs == old(bufs)[b := Buf(dev, blockno, 1, false, false, old(bufs)[b].data)]
    {
      b := Lookup(dev, blockno);
      if b != 0 {
        Recount(bufs, disk, seen, home, b, bufs[b].refcnt + 1);
        bufs := bufs[b := bufs[b].(refcnt := bufs[b].refcnt + 1)];
        return;
      }
      b := Victim();
      if b != 0 {
        assert forall c :: 0 < c < |bufs| ==> !Named(bufs[c], dev, blockno);
        Recycle(bufs, disk, seen, home, b, dev, blockno);
        home := Evicted(home, bufs[b]);
        bufs := bufs[b := Buf(dev, blockno, 1, false, false, bufs[b].data)];
      }
    }

    /** memide's iderw, for a buffer its caller has locked; false is one of its panics. */
    method Iderw(b: nat) returns (ok: bool)
      requires Valid() && 0 < b < |bufs| && bufs[b].refcnt > 0
      modifies this`bufs, this`disk, this`home
      ensures Valid() && |disk| == old(|disk|)
      ensures ok <==> old(!(bufs[b].valid && !bufs[b].dirty) && bufs[b].dev == ROOTDEV && bufs[b].blockno < |disk|)
      ensures !ok ==> bufs == old(bufs) && disk == old(disk)
      ensures ok ==> var x, k := old(bufs[b]), old(bufs[b]).blockno;
                bufs == old(bufs)[b := x.(dirty := false, valid := true,
                                          data := if x.dirty then x.data else old(disk)[k])]
                && disk == if x.dirty then old(disk)[k := x.data] else old(disk)
      ensures ok ==> bufs[b].data == seen[bufs[b].blockno]
    {
      var x := bufs[b];
      assert BufOk(bufs, disk, home, b);
      if x.valid && !x.dirty { return false; }
      if x.dev != ROOTDEV { return false; }
      if x.blockno >= |disk| { return false; }
      if x.dirty {
        assert BlockOk(bufs, disk, seen, home, x.blockno);
        Update(bufs, disk, seen, home, b, x.(dirty := false), true);
        assert seen[x.blockno := x.data] == seen;
        disk := disk[x.blockno := x.data];
        bufs := bufs[b := x.(dirty := false)];
      } else {
        Fetch(bufs, disk, seen, home, b);
        home := home[x.blockno := b];
        bufs := bufs[b := x.(valid := true, data := disk[x.blockno])];
      }
      ok := true;
    }

    /** A locked buffer with the contents last written through the cache; 0 is a panic. */
    method Bread(dev: nat, blockno: nat) returns (b: nat)
      requires Valid()
      modifies this`bufs, this`disk, this`home
      ensures Valid() && |bufs| == old(|bufs|)
      ensures b != 0 ==>
                && b < |bufs| && dev == ROOTDEV && blockno < |seen| && disk == old(disk)
                && Named(bufs[b], dev, blockno) && bufs[b].valid && bufs[b].refcnt > 0 && bufs[b].data == seen[blockno]
      ensures b == 0 ==>
                || dev != ROOTDEV || blockno >= |old(disk)|
                || forall c :: 0 < c < |bufs| ==> !Named(old(bufs)[c], dev, blockno) && !Idle(old(bufs)[c])
    {
      b := Bget(dev, blockno);
      if b == 0 { return; }
      assert BufOk(bufs, disk, home, b);
      if !bufs[b].valid {
        var ok := Iderw(b);
        if !ok { b := 0; }
      } else {
        assert BlockOk(bufs, disk, seen, home, blockno);
      }
    }

    /** The holder of a buffer changes its bytes: from here on the cache shows them. */
    method Fill(b: nat, data: Data)
      requires Valid() && 0 < b < |bufs| && bufs[b].refcnt > 0 && bufs[b].valid
      modifies this`bufs, this`seen
      ensures Valid() && bufs == old(bufs)[b := old(bufs[b]).(data := data)]
      ensures bufs[b].blockno < |seen| && seen == old(seen)[bufs[b].blockno := data]
    {
      Update(bufs, disk, seen, home, b, bufs[b].(data := data), false);
      seen := seen[bufs[b].blockno := data];
      bufs := bufs[b := bufs[b].(data := data)];
    }

    /** log_write pins a buffer; bwrite does so only on the way to the disk. */
    method Pin(b: nat)
      requires Valid() && 0 < b < |bufs| && bufs[b].refcnt > 0 && bufs[b].valid
      modifies this`bufs
      ensures Valid() && bufs == old(bufs)[b := old(bufs[b]).(dirty := true)]
    {
      assert BufOk(bufs, disk, home, b) && BlockOk(bufs, disk, seen, home, bufs[b].blockno);
      Update(bufs, disk, seen, home, b, bufs[b].(dirty := true), false);
      assert seen[bufs[b].blockno := bufs[b].data] == seen;
      bufs := bufs[b := bufs[b].(dirty := true)];
    }

    /** The disk gets what the cache shows for the block. */
    method Bwrite(b: nat)
      requires Valid() && 0 < b < |bufs| && bufs[b].refcnt > 0 && bufs[b].valid
      modifies this`bufs, this`disk, this`home
      ensures Valid() && bufs == old(bufs)[b := old(bufs[b]).(dirty := false)]
      ensures bufs[b].blockno < |seen| == |disk| && disk == old(disk)[bufs[b].blockno := seen[bufs[b].blockno]]
    {
      assert BufOk(bufs, disk, home, b);
      Pin(b);
      var ok := Iderw(b);
    }

    /** Give a buffer back; the last to do so moves it to the front. A caller that has changed the
        bytes has written them or pinned the buffer first. */
    method Brelse(b: nat)
      requires Valid() && 0 < b < |bufs| && bufs[b].refcnt > 0
      requires bufs[b].valid && !bufs[b].dirty && bufs[b].blockno < |disk| ==> bufs[b].data == disk[bufs[b].blockno]
      modifies this`next, this`prev, this`bufs, this`order, this`pos, this`stamp, this`clock
      ensures Valid() && bufs == old(bufs)[b := old(bufs[b]).(refcnt := old(bufs[b].refcnt) - 1)]
      ensures if bufs[b].refcnt == 0
              then old(b < |pos| && pos[b] < |order|) && order == old(Front(order, pos, b))
                && stamp == old(stamp)[b := old(clock)]
              else order == old(order) && stamp == old(stamp)
    {
      hide Whole;
      hide Recent;
      Recount(bufs, disk, seen, home, b, bufs[b].refcnt - 1);
      bufs := bufs[b := bufs[b].(refcnt := bufs[b].refcnt - 1)];
      if bufs[b].refcnt == 0 { ToFront(b); }
    }

    /** The last reference is gone: `b` becomes the most recently released. */
    method ToFront(b: nat)
      requires Whole(next, prev, order, pos) && Recent(order, stamp, clock) && 0 < b < |next| == |stamp|
      modifies this`next, this`prev, this`order, this`pos, this`stamp, this`clock
      ensures Whole(next, prev, order, pos) && Recent(order, stamp, clock) && |next| == old(|next|)
      ensures old(b < |pos| && pos[b] < |order|) && order == old(Front(order, pos, b))
              && stamp == old(stamp)[b := old(clock)]
    {
      MoveToFront(next, prev, order, pos, b);
      forall i | 0 <= i < |order| && i != pos[b] ensures order[i] != b { assert pos[order[i]] == i; }
      Released(order, pos, stamp, clock, b);
      hide Whole;
      hide Recent;
      Relink(b);
      order, pos := Front(order, pos, b), Shifted(Closed(pos, pos[b]), b);
      stamp, clock := stamp[b := clock], clock + 1;
    }

    /** brelse's assignments to the links. */
    method Relink(b: nat)
      requires 0 < b < |next| == |prev| && next[b] < |next| && prev[b] < |next| && next[0] < |next|
      modifies this`next, this`prev
      ensures next == old(FrontNext(next, prev, b)) && prev == old(FrontPrev(next, prev, b))
    {
      var n, p := next[b], prev[b];
      prev := prev[n := p];
      next := next[p := n];
      next := next[b := next[0]];
      prev := prev[b := 0];
      prev := prev[next[0] := b];
      next := next[0 := b];
    }
  }
}
