/** Frames, page tables and address spaces as values: the linked free list of kalloc.c, the ownership of
    frames by a two-level page table, and what freeing, building, copying and growing a space do to
    both. A frame holds a table, a page of user memory, or, when free, the link to the next free
    frame. Shared-memory pages are not part of this model. */
module PageTable {

  import opened Params

  const NENTRIES := 1024
  const NUSER := 512        // directory entries below KERNBASE
  const NONE := -1
  const PGSIZE := 4096

  /** A directory or table entry: frame, the present and lazy flags, and the other flag bits. */
  datatype Pte = Pte(frame: nat, present: bool, lazy: bool, bits: nat)

  datatype Frame = Table(e: seq<Pte>) | Page(data: seq<int>) | Run(next: int)

  /** Pages that hold `sz` bytes: the size rounded up. */
  function Pages(sz: nat): nat { (sz + PGSIZE - 1) / PGSIZE }

  // ---------- the free list ----------

  /** hi - 1, ..., lo: the order in which freerange leaves its frames. */
  function Down(lo: nat, hi: nat): (s: seq<nat>)
    ensures |s| == (if lo <= hi then hi - lo else 0) && forall k :: 0 <= k < |s| ==> s[k] == hi - 1 - k
  {
    seq(if lo <= hi then hi - lo else 0, k requires 0 <= k < (if lo <= hi then hi - lo else 0) => hi - 1 - k)
  }

  lemma DownNext(lo: nat, p: nat, rest: seq<nat>)
    requires lo <= p && forall f :: f in rest ==> f < lo || p < f
    ensures Down(lo, p + 1) + rest == [p] + (Down(lo, p) + rest) && p !in Down(lo, p) + rest
  {}

  function HeadOf(order: seq<nat>): int { if order == [] then NONE else order[0] }

  /** `order` are the free frames, each once, linked from `freelist` through the frames themselves. */
  ghost predicate FreeOk(frames: seq<Frame>, freelist: int, order: seq<nat>) {
    && freelist == HeadOf(order)
    && (forall k :: 0 <= k < |order| ==> order[k] < |frames| && frames[order[k]] == Run(HeadOf(order[k + 1..])))
    && (forall k, m :: 0 <= k < m < |order| ==> order[k] != order[m])
  }

  lemma Pop(frames: seq<Frame>, freelist: int, order: seq<nat>)
    requires FreeOk(frames, freelist, order) && order != []
    ensures order[0] < |frames| && frames[order[0]].Run? && FreeOk(frames, frames[order[0]].next, order[1..])
            && order[0] !in order[1..]
  {
    assert frames[order[0]] == Run(HeadOf(order[1..]));
    forall k | 0 <= k < |order| - 1
      ensures order[1..][k] < |frames| && frames[order[1..][k]] == Run(HeadOf(order[1..][k + 1..]))
    {
      assert order[1..][k] == order[k + 1] && order[1..][k + 1..] == order[k + 2..];
    }
  }

  lemma Push(frames: seq<Frame>, freelist: int, order: seq<nat>, f: nat)
    requires FreeOk(frames, freelist, order) && f < |frames| && f !in order
    ensures FreeOk(frames[f := Run(freelist)], f, [f] + order)
  {
    var o := [f] + order;
    assert o[1..] == order;
    forall k | 0 <= k < |o| ensures o[k] < |frames| && frames[f := Run(freelist)][o[k]] == Run(HeadOf(o[k + 1..])) {
      if k > 0 { assert o[k] == order[k - 1] && o[k + 1..] == order[k..]; }
    }
  }

  /** Writing a frame that is not free leaves the list alone. */
  lemma Written(frames: seq<Frame>, freelist: int, order: seq<nat>, f: nat, x: Frame)
    requires FreeOk(frames, freelist, order) && f < |frames| && f !in order
    ensures FreeOk(frames[f := x], freelist, order)
  {}

  // ---------- address spaces ----------

  /** What a frame of an address space is for: the directory, the table of a directory entry, or the
      page of a table entry. */
  datatype Use = Dir | Tab(i: nat) | Leaf(i: nat, j: nat)

  ghost predicate IsTable(frames: seq<Frame>, t: nat) { t < |frames| && frames[t].Table? && |frames[t].e| == NENTRIES }

  /** Entry `j` of user table `i`. */
  ghost predicate LeafOk(frames: seq<Frame>, own: map<nat, Use>, i: nat, j: nat, p: Pte) {
    p.present ==> !p.lazy && p.frame in own && own[p.frame] == Leaf(i, j) && p.frame < |frames| && frames[p.frame].Page?
  }

  ghost predicate TabOk(frames: seq<Frame>, own: map<nat, Use>, i: nat, p: Pte) {
    p.present ==>
      && p.frame in own && own[p.frame] == Tab(i) && IsTable(frames, p.frame)
      && (i < NUSER ==> forall j :: 0 <= j < NENTRIES ==> LeafOk(frames, own, i, j, frames[p.frame].e[j]))
  }

  /** A frame the space owns is found where its use says. */
  ghost predicate UseOk(frames: seq<Frame>, d: nat, f: nat, u: Use)
    requires IsTable(frames, d)
  {
    match u
    case Dir => f == d
    case Tab(i) => i < NENTRIES && frames[d].e[i].present && frames[d].e[i].frame == f
    case Leaf(i, j) =>
      && i < NUSER && frames[d].e[i].present && IsTable(frames, frames[d].e[i].frame) && j < NENTRIES
      && frames[frames[d].e[i].frame].e[j].present && frames[frames[d].e[i].frame].e[j].frame == f
  }

  /** The space with directory `d` owns exactly the frames in `own`, each for one use. */
  ghost predicate Space(frames: seq<Frame>, d: nat, own: map<nat, Use>) {
    && IsTable(frames, d) && d in own && own[d] == Dir
    && (forall i :: 0 <= i < NENTRIES ==> TabOk(frames, own, i, frames[d].e[i]))
    && (forall f :: f in own ==> UseOk(frames, d, f, own[f]))
  }

  /** No frame of the space is free. */
  ghost predicate Apart(own: map<nat, Use>, order: seq<nat>) { forall f :: f in own ==> f !in order }

  ghost function SetOf(order: seq<nat>): set<nat> { set f | f in order }

  const ZERO := Pte(0, false, false, 0)

  function TableFrame(frames: seq<Frame>, d: nat, i: nat): nat
    requires d < |frames| && frames[d].Table? && i < |frames[d].e|
  {
    frames[d].e[i].frame
  }

  /** A page is freed and its entry cleared. */
  function LeafFreed(frames: seq<Frame>, t: nat, j: nat, freelist: int): seq<Frame>
    requires t < |frames| && frames[t].Table? && j < |frames[t].e| && frames[t].e[j].frame < |frames|
  {
    var f := frames[t].e[j].frame;
    frames[f := Run(freelist)][t := Table(frames[t].e[j := ZERO])]
  }

  lemma LeafFacts(frames: seq<Frame>, d: nat, own: map<nat, Use>, i: nat, j: nat)
    requires Space(frames, d, own) && i < NUSER && j < NENTRIES && frames[d].e[i].present
    ensures var t := TableFrame(frames, d, i);
            && IsTable(frames, t) && t in own && own[t] == Tab(i) && t != d
            && (frames[t].e[j].present ==>
                  var f := frames[t].e[j].frame; f < |frames| && f in own && own[f] == Leaf(i, j) && f != t && f != d)
  {
    var t := TableFrame(frames, d, i);
    assert TabOk(frames, own, i, frames[d].e[i]);
    assert LeafOk(frames, own, i, j, frames[t].e[j]);
  }

  lemma LeafFreedTab(frames: seq<Frame>, d: nat, own: map<nat, Use>, i: nat, j: nat, freelist: int, k: nat)
    requires Space(frames, d, own) && i < NUSER && j < NENTRIES && frames[d].e[i].present && k < NENTRIES
    requires IsTable(frames, TableFrame(frames, d, i)) && frames[TableFrame(frames, d, i)].e[j].present
    requires frames[TableFrame(frames, d, i)].e[j].frame < |frames|
    ensures var t := TableFrame(frames, d, i);
            var f := frames[t].e[j].frame;
            TabOk(LeafFreed(frames, t, j, freelist), own - {f}, k, frames[d].e[k])
  {
    LeafFacts(frames, d, own, i, j);
    var t := TableFrame(frames, d, i);
    var f := frames[t].e[j].frame;
    var frames' := LeafFreed(frames, t, j, freelist);
    var p := frames[d].e[k];
    assert TabOk(frames, own, k, p);
    if p.present && k < NUSER {
      forall m | 0 <= m < NENTRIES ensures LeafOk(frames', own - {f}, k, m, frames'[p.frame].e[m]) {
        assert LeafOk(frames, own, k, m, frames[p.frame].e[m]);
      }
    }
  }

  lemma LeafFreedSpace(frames: seq<Frame>, d: nat, own: map<nat, Use>, i: nat, j: nat, freelist: int)
    requires Space(frames, d, own) && i < NUSER && j < NENTRIES && frames[d].e[i].present
    requires IsTable(frames, TableFrame(frames, d, i)) && frames[TableFrame(frames, d, i)].e[j].present
    ensures var t := TableFrame(frames, d, i);
            var f := frames[t].e[j].frame;
            f < |frames| && Space(LeafFreed(frames, t, j, freelist), d, own - {f})
              && LeafFreed(frames, t, j, freelist)[d] == frames[d]
  {
    LeafFacts(frames, d, own, i, j);
    var t := TableFrame(frames, d, i);
    var f := frames[t].e[j].frame;
    var frames' := LeafFreed(frames, t, j, freelist);
    forall k | 0 <= k < NENTRIES ensures TabOk(frames', own - {f}, k, frames'[d].e[k]) {
      LeafFreedTab(frames, d, own, i, j, freelist, k);
    }
    hide TabOk;
    forall g | g in own - {f} ensures UseOk(frames', d, g, own[g]) { assert UseOk(frames, d, g, own[g]); }
  }

  /** Page number of an entry: its address divided by the page size. */
  function Index(i: nat, j: nat): nat { i * NENTRIES + j }

  lemma IndexSplit(v: nat)
    ensures Index(v / NENTRIES, v % NENTRIES) == v && v % NENTRIES < NENTRIES
    ensures v < NUSER * NENTRIES ==> v / NENTRIES < NUSER
  {}

  lemma IndexUnique(i: nat, j: nat, v: nat)
    requires j < NENTRIES && Index(i, j) == v
    ensures i == v / NENTRIES && j == v % NENTRIES
  {}

  /** The page lies in [lo, hi). */
  predicate Within(u: Use, lo: nat, hi: nat) { u.Leaf? && lo <= Index(u.i, u.j) < hi }

  /** `left` is what remains of `own` without the pages in [lo, hi). */
  ghost predicate Trimmed(own: map<nat, Use>, left: map<nat, Use>, lo: nat, hi: nat) {
    && (forall f :: f in left <==> f in own && !Within(own[f], lo, hi))
    && (forall f :: f in left ==> left[f] == own[f])
  }

  /** All frames the space has lost are free now, and nothing else became free or was taken. */
  ghost predicate Returned(was: seq<nat>, order: seq<nat>, own: map<nat, Use>, left: map<nat, Use>) {
    SetOf(order) == SetOf(was) + (own.Keys - left.Keys)
  }

  /** The entry of page number `v`; no entry where there is no table. */
  ghost function PteAt(frames: seq<Frame>, d: nat, v: nat): Pte {
    var i := v / NENTRIES;
    if IsTable(frames, d) && i < NUSER && frames[d].e[i].present && IsTable(frames, frames[d].e[i].frame)
    then frames[frames[d].e[i].frame].e[v % NENTRIES] else ZERO
  }

  /** Of the entries, exactly those of present pages in [lo, hi) were cleared. */
  ghost predicate Cleared(was: seq<Frame>, frames: seq<Frame>, d: nat, lo: nat, hi: nat) {
    forall v: nat :: PteAt(frames, d, v) == if lo <= v < hi && PteAt(was, d, v).present then ZERO else PteAt(was, d, v)
  }

  /** The pages of the space have the same contents. */
  ghost predicate PagesKept(was: seq<Frame>, frames: seq<Frame>, own: map<nat, Use>) {
    |frames| == |was| && forall f :: f in own && own[f].Leaf? && f < |was| ==> frames[f] == was[f]
  }

  lemma LeafFreedPte(frames: seq<Frame>, d: nat, own: map<nat, Use>, i: nat, j: nat, freelist: int, v: nat)
    requires Space(frames, d, own) && i < NUSER && j < NENTRIES && frames[d].e[i].present
    requires IsTable(frames, TableFrame(frames, d, i)) && frames[TableFrame(frames, d, i)].e[j].present
             && frames[TableFrame(frames, d, i)].e[j].frame < |frames|
    ensures PteAt(LeafFreed(frames, TableFrame(frames, d, i), j, freelist), d, v) == if v == Index(i, j) then ZERO
            else PteAt(frames, d, v)
  {
    LeafFacts(frames, d, own, i, j);
    var k := v / NENTRIES;
    IndexSplit(v);
    if v == Index(i, j) { IndexUnique(i, j, v); }
    if k < NUSER && frames[d].e[k].present { LeafFacts(frames, d, own, k, v % NENTRIES); }
  }

  lemma ClearedNext(was: seq<Frame>, frames: seq<Frame>, frames': seq<Frame>, d: nat, lo: nat, w: nat)
    requires Cleared(was, frames, d, lo, w) && lo <= w
    requires forall v: nat :: PteAt(frames', d, v) == if v == w then ZERO else PteAt(frames, d, v)
    requires PteAt(frames, d, w).present
    ensures Cleared(was, frames', d, lo, w + 1)
  {
    forall v: nat
      ensures PteAt(frames', d, v) == if lo <= v < w + 1 && PteAt(was, d, v).present then ZERO else PteAt(was, d, v)
    {
      assert PteAt(frames, d, v) == if lo <= v < w && PteAt(was, d, v).present then ZERO else PteAt(was, d, v);
    }
  }

  lemma ClearedSkip(was: seq<Frame>, frames: seq<Frame>, d: nat, lo: nat, w: nat, n: nat)
    requires Cleared(was, frames, d, lo, w) && lo <= w <= n && forall v: nat :: w <= v < n ==>
             !PteAt(frames, d, v).present
    ensures Cleared(was, frames, d, lo, n)
  {
    forall v: nat
      ensures PteAt(frames, d, v) == if lo <= v < n && PteAt(was, d, v).present then ZERO else PteAt(was, d, v)
    {
      assert PteAt(frames, d, v) == if lo <= v < w && PteAt(was, d, v).present then ZERO else PteAt(was, d, v);
    }
  }

  lemma NoTable(frames: seq<Frame>, d: nat, i: nat)
    requires IsTable(frames, d) && i < NUSER && !frames[d].e[i].present
    ensures forall v: nat :: i * NENTRIES <= v < (i + 1) * NENTRIES ==> !PteAt(frames, d, v).present
  {
    forall v: nat | i * NENTRIES <= v < (i + 1) * NENTRIES
      ensures !PteAt(frames, d, v).present
    {
      IndexUnique(i, v - i * NENTRIES, v);
    }
  }

  lemma PresentLeaf(frames: seq<Frame>, d: nat, own: map<nat, Use>, v: nat)
    requires Space(frames, d, own) && PteAt(frames, d, v).present
    ensures var i, j := v / NENTRIES, v % NENTRIES;
            && i < NUSER && IsTable(frames, d) && frames[d].e[i].present && IsTable(frames, frames[d].e[i].frame)
            && frames[frames[d].e[i].frame].e[j].present
            && var f := frames[frames[d].e[i].frame].e[j].frame; f in own && own[f] == Leaf(i, j) && f < |frames|
  {
    LeafFacts(frames, d, own, v / NENTRIES, v % NENTRIES);
  }

  lemma PagesKeptTrans(a: seq<Frame>, b: seq<Frame>, c: seq<Frame>, own: map<nat, Use>, left: map<nat, Use>)
    requires PagesKept(a, b, own) && PagesKept(b, c, left) && forall f :: f in left ==> f in own && left[f] == own[f]
    ensures PagesKept(a, c, left)
  {}

  lemma TrimSkip(frames: seq<Frame>, d: nat, own: map<nat, Use>, left: map<nat, Use>, lo: nat, v: nat)
    requires Space(frames, d, left) && Trimmed(own, left, lo, v) && v / NENTRIES < NENTRIES
             && !frames[d].e[v / NENTRIES].present && lo <= v
    ensures Trimmed(own, left, lo, (v / NENTRIES + 1) * NENTRIES)
  {
    forall f | f in left ensures !Within(left[f], lo, (v / NENTRIES + 1) * NENTRIES) {
      assert UseOk(frames, d, f, left[f]);
    }
  }

  lemma TrimKeep(frames: seq<Frame>, d: nat, own: map<nat, Use>, left: map<nat, Use>, lo: nat, v: nat)
    requires Space(frames, d, left) && Trimmed(own, left, lo, v) && lo <= v && v / NENTRIES < NUSER
             && frames[d].e[v / NENTRIES].present
    requires IsTable(frames, TableFrame(frames, d, v / NENTRIES))
             && !frames[TableFrame(frames, d, v / NENTRIES)].e[v % NENTRIES].present
    ensures Trimmed(own, left, lo, v + 1)
  {
    forall f | f in left ensures !Within(left[f], lo, v + 1) {
      assert UseOk(frames, d, f, left[f]);
      if left[f].Leaf? && Index(left[f].i, left[f].j) == v { IndexUnique(left[f].i, left[f].j, v); }
    }
  }

  lemma TrimDrop(frames: seq<Frame>, d: nat, own: map<nat, Use>, left: map<nat, Use>, lo: nat, v: nat, f: nat)
    requires Space(frames, d, left) && Trimmed(own, left, lo, v) && lo <= v && v / NENTRIES < NUSER && f in left
    requires left[f] == Leaf(v / NENTRIES, v % NENTRIES)
    ensures Trimmed(own, left - {f}, lo, v + 1)
  {
    IndexSplit(v);
    assert UseOk(frames, d, f, left[f]);
    forall g | g in left && g != f ensures !Within(left[g], lo, v + 1) {
      assert UseOk(frames, d, g, left[g]);
      if left[g].Leaf? && Index(left[g].i, left[g].j) == v { IndexUnique(left[g].i, left[g].j, v); }
    }
  }

  // ---------- building a space ----------

  /** The pages of a table that is being built for directory entry `i`, entries below `n` done. */
  ghost predicate Leaves(frames: seq<Frame>, t: nat, i: nat, n: nat, leaves: map<nat, Use>) {
    && IsTable(frames, t) && n <= NENTRIES && t !in leaves
    && (forall j :: 0 <= j < n ==> LeafOk(frames, leaves, i, j, frames[t].e[j]))
    && (forall f :: f in leaves ==>
          leaves[f].Leaf? && leaves[f].i == i && leaves[f].j < n && frames[t].e[leaves[f].j].present
          && frames[t].e[leaves[f].j].frame == f)
  }

  /** What a space owns once table `t` is entered at `i`. */
  ghost function Joined(own: map<nat, Use>, i: nat, t: nat, leaves: map<nat, Use>): map<nat, Use> {
    own + leaves + map[t := Tab(i)]
  }

  lemma JoinedTab(frames: seq<Frame>, d: nat, own: map<nat, Use>, i: nat, t: nat, leaves: map<nat, Use>, p: Pte, k: nat)
    requires Space(frames, d, own) && i < NENTRIES && k < NENTRIES && t !in own && leaves.Keys !! own.Keys
    requires IsTable(frames, t) && t !in leaves
             && (if i < NUSER then Leaves(frames, t, i, NENTRIES, leaves) else leaves == map[])
    requires p.present && p.frame == t
    ensures TabOk(frames[d := Table(frames[d].e[i := p])], Joined(own, i, t, leaves), k, frames[d].e[i := p][k])
  {
    var frames' := frames[d := Table(frames[d].e[i := p])];
    var own' := Joined(own, i, t, leaves);
    var q := frames[d].e[i := p][k];
    assert d in own && own[d] == Dir;
    if k == i {
      if i < NUSER {
        forall j | 0 <= j < NENTRIES
          ensures LeafOk(frames', own', i, j, frames'[t].e[j])
        {
          assert LeafOk(frames, leaves, i, j, frames[t].e[j]);
        }
      }
    } else {
      assert TabOk(frames, own, k, q);
      if q.present && k < NUSER {
        forall j | 0 <= j < NENTRIES
          ensures LeafOk(frames', own', k, j, frames'[q.frame].e[j])
        {
          assert LeafOk(frames, own, k, j, frames[q.frame].e[j]);
        }
      }
    }
  }

  lemma JoinedSpace(frames: seq<Frame>, d: nat, own: map<nat, Use>, i: nat, t: nat, leaves: map<nat, Use>, p: Pte)
    requires Space(frames, d, own) && i < NENTRIES && !frames[d].e[i].present && t !in own && leaves.Keys !! own.Keys
    requires IsTable(frames, t) && t !in leaves
             && (if i < NUSER then Leaves(frames, t, i, NENTRIES, leaves) else leaves == map[])
    requires p.present && p.frame == t
    ensures Space(frames[d := Table(frames[d].e[i := p])], d, Joined(own, i, t, leaves))
  {
    var frames' := frames[d := Table(frames[d].e[i := p])];
    var own' := Joined(own, i, t, leaves);
    assert d in own && own[d] == Dir;
    forall k | 0 <= k < NENTRIES
      ensures TabOk(frames', own', k, frames'[d].e[k])
    {
      JoinedTab(frames, d, own, i, t, leaves, p, k);
    }
    hide TabOk;
    forall f | f in own' ensures UseOk(frames', d, f, own'[f]) {
      if f in own { assert UseOk(frames, d, f, own[f]); }
    }
  }

  // ---------- copying ----------

  /** The child's entry: same flags, and for a present page the same contents. */
  ghost predicate CopiedLeaf(frames: seq<Frame>, p: Pte, q: Pte) {
    && q.present == p.present && q.lazy == p.lazy && q.bits == p.bits
    && (p.present ==> p.frame < |frames| && q.frame < |frames| && frames[q.frame] == frames[p.frame])
  }

  /** A table whose present entries lead to pages in use. */
  ghost predicate Copyable(frames: seq<Frame>, order: set<nat>, t: nat) {
    && IsTable(frames, t) && t !in order
    && forall j {:trigger frames[t].e[j]} :: 0 <= j < NENTRIES && frames[t].e[j].present ==>
         var p := frames[t].e[j]; !p.lazy && p.frame < |frames| && frames[p.frame].Page? && p.frame !in order
  }

  /** A copy of table `t` in progress in frame `nt`: entries below `n` are the child's, the others
      still the parent's; `leaves` are the pages taken so far. `free` were the free frames before. */
  ghost predicate Copying(frames: seq<Frame>, order: seq<nat>, free: set<nat>, t: nat, nt: nat, i: nat, n: nat,
                          leaves: map<nat, Use>) {
    && Copyable(frames, free, t) && Leaves(frames, nt, i, n, leaves) && t != nt
    && free == SetOf(order) + leaves.Keys + {nt} && nt !in order && (forall f :: f in leaves ==> f !in order)
    && (forall j {:trigger frames[nt].e[j]} :: 0 <= j < NENTRIES ==>
          if j < n then CopiedLeaf(frames, frames[t].e[j], frames[nt].e[j]) else frames[nt].e[j] == frames[t].e[j])
  }

  function WithPte(frames: seq<Frame>, t: nat, j: nat, p: Pte): seq<Frame>
    requires t < |frames| && frames[t].Table? && j < |frames[t].e|
  {
    frames[t := Table(frames[t].e[j := p])]
  }

  lemma CopyStart(frames: seq<Frame>, order: seq<nat>, free: set<nat>, t: nat, nt: nat, i: nat)
    requires Copyable(frames, free, t) && nt < |frames| && nt !in order && free == SetOf(order) + {nt}
    ensures Copying(frames[nt := Table(frames[t].e)], order, free, t, nt, i, 0, map[])
  {
    assert nt in free;
  }

  /** An entry without a page: left as copied, or a lazy mark without an address. */
  lemma CopyNone(frames: seq<Frame>, order: seq<nat>, free: set<nat>, t: nat, nt: nat, i: nat, n: nat,
                 leaves: map<nat, Use>, q: Pte)
    requires Copying(frames, order, free, t, nt, i, n, leaves) && n < NENTRIES && !frames[t].e[n].present
    requires !q.present && q.lazy == frames[t].e[n].lazy && q.bits == frames[t].e[n].bits
    ensures Copying(WithPte(frames, nt, n, q), order, free, t, nt, i, n + 1, leaves)
  {
    var frames' := WithPte(frames, nt, n, q);
    assert nt in free;
    forall j | 0 <= j < n + 1 ensures LeafOk(frames', leaves, i, j, frames'[nt].e[j]) {
      if j < n { assert LeafOk(frames, leaves, i, j, frames[nt].e[j]); }
    }
    forall j | 0 <= j < NENTRIES
      ensures if j < n + 1 then CopiedLeaf(frames', frames'[t].e[j], frames'[nt].e[j])
              else frames'[nt].e[j] == frames'[t].e[j]
    {
      assert frames[nt].e[j] == frames[nt].e[j] && frames[t].e[j] == frames'[t].e[j];
    }
  }

  /** A present entry: a fresh frame with the page's contents. */
  lemma CopyPage(frames: seq<Frame>, order: seq<nat>, free: set<nat>, t: nat, nt: nat, i: nat, n: nat,
                 leaves: map<nat, Use>, m: nat)
    requires Copying(frames, order, free, t, nt, i, n, leaves) && n < NENTRIES && frames[t].e[n].present
    requires order != [] && m == order[0] && m < |frames| && m !in order[1..]
    ensures frames[t].e[n].frame < |frames|
    ensures var p := frames[t].e[n];
            Copying(WithPte(frames[m := frames[p.frame]], nt, n, p.(frame := m)), order[1..], free, t, nt, i, n + 1,
                    leaves[m := Leaf(i, n)])
  {
    var p := frames[t].e[n];
    var frames1 := frames[m := frames[p.frame]];
    var frames' := WithPte(frames1, nt, n, p.(frame := m));
    var leaves' := leaves[m := Leaf(i, n)];
    assert m in order && m in free;
    forall j | 0 <= j < n + 1 ensures LeafOk(frames', leaves', i, j, frames'[nt].e[j]) {
      if j < n { assert LeafOk(frames, leaves, i, j, frames[nt].e[j]); }
    }
    forall j | 0 <= j < NENTRIES
      ensures if j < n + 1 then CopiedLeaf(frames', frames'[t].e[j], frames'[nt].e[j])
              else frames'[nt].e[j] == frames'[t].e[j]
    {
      assert frames[t].e[j] == frames'[t].e[j];
      if j < n {
        assert CopiedLeaf(frames, frames[t].e[j], frames[nt].e[j]) && LeafOk(frames, leaves, i, j, frames[nt].e[j]);
      }
    }
    assert SetOf(order) == SetOf(order[1..]) + {m} by { assert order == [m] + order[1..]; }
    forall f | f in leaves' ensures leaves'[f].Leaf? && leaves'[f].i == i && leaves'[f].j < n + 1
      && frames'[nt].e[leaves'[f].j].present && frames'[nt].e[leaves'[f].j].frame == f {}
  }

  const USER_BITS := 6 // writable, user

  /** Directory entries of the kernel's mappings: physical memory up to PHYSTOP, and the devices. */
  predicate KernelDir(i: nat) { 512 <= i < 568 || 1016 <= i < 1024 }

  function Blank(): (e: seq<Pte>)
    ensures |e| == NENTRIES && forall i :: 0 <= i < NENTRIES ==> e[i] == ZERO
  {
    seq(NENTRIES, i => ZERO)
  }

  /** A space under construction: the frames it owns came off the list, and no others. */
  ghost predicate Fresh(frames: seq<Frame>, d: nat, own: map<nat, Use>, free: set<nat>, order: seq<nat>) {
    Space(frames, d, own) && Apart(own, order) && free == SetOf(order) + own.Keys
  }

  lemma BlankSpace(frames: seq<Frame>, d: nat)
    requires d < |frames| && frames[d] == Table(Blank())
    ensures Space(frames, d, map[d := Dir])
  {}

  lemma FreshTable(frames: seq<Frame>, d: nat, own: map<nat, Use>, free: set<nat>, order: seq<nat>, t: nat)
    requires Fresh(frames, d, own, free, order) && t in order
    ensures t !in own && d != t && t in free
  {}

  lemma FreshDir(frames: seq<Frame>, d: nat, own: map<nat, Use>, free: set<nat>, order: seq<nat>)
    requires Fresh(frames, d, own, free, order)
    ensures IsTable(frames, d) && Space(frames, d, own) && Apart(own, order) && SetOf(order) + own.Keys == free
    ensures forall g :: g in own ==> g in free
  {}

  ghost predicate CopiedTab(frames: seq<Frame>, p: Pte, q: Pte) {
    && q.present == p.present
    && (p.present ==>
          && IsTable(frames, p.frame) && IsTable(frames, q.frame)
          && forall j :: 0 <= j < NENTRIES ==> CopiedLeaf(frames, frames[p.frame].e[j], frames[q.frame].e[j]))
  }

  /** The user tables below `n` are copied, the others not there yet. */
  ghost predicate Copied(frames: seq<Frame>, d: nat, nd: nat, n: nat) {
    && IsTable(frames, d) && IsTable(frames, nd) && d != nd
    && n <= NUSER && (forall i :: 0 <= i < n ==> CopiedAt(frames, d, nd, i))
    && (forall i :: n <= i < NUSER ==> !frames[nd].e[i].present)
  }

  ghost predicate CopiedAt(frames: seq<Frame>, d: nat, nd: nat, i: nat)
    requires IsTable(frames, d) && IsTable(frames, nd) && i < NUSER
  {
    CopiedTab(frames, frames[d].e[i], frames[nd].e[i])
  }

  lemma CopiedSkip(frames: seq<Frame>, d: nat, nd: nat, i: nat)
    requires Copied(frames, d, nd, i) && i < NUSER && !frames[d].e[i].present
    ensures Copied(frames, d, nd, i + 1)
  {}

  lemma SpaceCopyable(frames: seq<Frame>, d: nat, own: map<nat, Use>, i: nat, free: set<nat>)
    requires Space(frames, d, own) && i < NUSER && frames[d].e[i].present && own.Keys !! free
    ensures Copyable(frames, free, frames[d].e[i].frame) && frames[d].e[i].frame in own
  {
    var p := frames[d].e[i];
    assert TabOk(frames, own, i, p);
    forall j | 0 <= j < NENTRIES && frames[p.frame].e[j].present
      ensures var q := frames[p.frame].e[j]; !q.lazy && q.frame < |frames| && frames[q.frame].Page? && q.frame !in free
    {
      assert LeafOk(frames, own, i, j, frames[p.frame].e[j]);
    }
  }

  lemma CopiedKept(frames: seq<Frame>, frames': seq<Frame>, d: nat, nd: nat, own: map<nat, Use>, nown: map<nat, Use>,
                   n: nat)
    requires Copied(frames, d, nd, n) && Space(frames, d, own) && Space(frames, nd, nown) && |frames'| == |frames|
    requires nown.Keys !! own.Keys && forall f :: (f in own || f in nown) && f < |frames| ==> frames'[f] == frames[f]
    ensures Copied(frames', d, nd, n)
  {
    assert frames'[d] == frames[d] && frames'[nd] == frames[nd];
    forall i | 0 <= i < n ensures CopiedAt(frames', d, nd, i) {
      assert CopiedAt(frames, d, nd, i);
      CopiedTabKept(frames, frames', d, nd, own, nown, i);
    }
  }

  lemma CopiedTabKept(frames: seq<Frame>, frames': seq<Frame>, d: nat, nd: nat, own: map<nat, Use>, nown: map<nat, Use>,
                      i: nat)
    requires Space(frames, d, own) && Space(frames, nd, nown) && |frames'| == |frames| && i < NUSER
    requires forall f :: (f in own || f in nown) && f < |frames| ==> (f != nd && f != d ==> frames'[f] == frames[f])
    requires CopiedTab(frames, frames[d].e[i], frames[nd].e[i]) && nd !in own && d !in nown
    ensures CopiedTab(frames', frames[d].e[i], frames[nd].e[i])
  {
    var p, q := frames[d].e[i], frames[nd].e[i];
    assert TabOk(frames, own, i, p) && TabOk(frames, nown, i, q);
    if p.present {
      forall j | 0 <= j < NENTRIES ensures CopiedLeaf(frames', frames'[p.frame].e[j], frames'[q.frame].e[j]) {
        assert CopiedLeaf(frames, frames[p.frame].e[j], frames[q.frame].e[j]);
        assert LeafOk(frames, own, i, j, frames[p.frame].e[j]) && LeafOk(frames, nown, i, j, frames[q.frame].e[j]);
      }
    }
  }

  /** The new table and its pages are none of the frames the new space has already. */
  lemma CopyingNew(frames: seq<Frame>, order: seq<nat>, free: set<nat>, t: nat, nt: nat, i: nat, leaves: map<nat, Use>,
                   nown: map<nat, Use>)
    requires Copying(frames, order, free, t, nt, i, NENTRIES, leaves) && nown.Keys !! free
    ensures nt !in nown && leaves.Keys !! nown.Keys && Apart(leaves, order) && nt !in order && nt !in leaves
            && Apart(nown, order)
    ensures IsTable(frames, nt) && Leaves(frames, nt, i, NENTRIES, leaves) && free == SetOf(order) + leaves.Keys + {nt}
  {
    assert nt in free;
    forall f | f in leaves ensures f in free && f !in nown {}
  }

  lemma JoinedKeys(own: map<nat, Use>, i: nat, t: nat, leaves: map<nat, Use>)
    ensures Joined(own, i, t, leaves).Keys == own.Keys + leaves.Keys + {t}
  {}

  lemma NewTab(frames: seq<Frame>, order: seq<nat>, free: set<nat>, t: nat, nt: nat, i: nat, leaves: map<nat, Use>,
               own: map<nat, Use>, nd: nat, x: Frame, p: Pte)
    requires Copying(frames, order, free, t, nt, i, NENTRIES, leaves) && p.present && p.frame == nt && nd < |frames|
    requires nd != t && nd != nt && nd !in leaves
    requires TabOk(frames, own, i, Pte(t, true, false, 0)) && i < NUSER && nd !in own
    ensures CopiedTab(frames[nd := x], Pte(t, true, false, 0), p)
  {
    var frames' := frames[nd := x];
    forall j | 0 <= j < NENTRIES ensures CopiedLeaf(frames', frames'[t].e[j], frames'[nt].e[j]) {
      assert CopiedLeaf(frames, frames[t].e[j], frames[nt].e[j]);
      assert LeafOk(frames, own, i, j, frames[t].e[j]) && LeafOk(frames, leaves, i, j, frames[nt].e[j]);
    }
  }

  lemma CopiedNext(frames: seq<Frame>, order: seq<nat>, free: set<nat>, d: nat, nd: nat, own: map<nat, Use>,
                   nown: map<nat, Use>, i: nat, nt: nat, leaves: map<nat, Use>, p: Pte)
    requires Copied(frames, d, nd, i) && Space(frames, d, own) && Space(frames, nd, nown) && i < NUSER
             && frames[d].e[i].present
    requires Copying(frames, order, free, frames[d].e[i].frame, nt, i, NENTRIES, leaves) && nown.Keys !! free
             && nown.Keys !! own.Keys && p.present && p.frame == nt
    ensures Copied(WithPte(frames, nd, i, p), d, nd, i + 1)
  {
    var frames' := WithPte(frames, nd, i, p);
    var t := frames[d].e[i].frame;
    assert d in own && nd in nown;
    CopyingNew(frames, order, free, t, nt, i, leaves, nown);
    assert TabOk(frames, own, i, frames[d].e[i]);
    assert t in own && t != nd;
    NewTab(frames, order, free, t, nt, i, leaves, own, nd, frames'[nd], p);
    forall k | 0 <= k < i + 1 ensures CopiedAt(frames', d, nd, k) {
      if k < i {
        assert CopiedAt(frames, d, nd, k);
        CopiedTabKept(frames, frames', d, nd, own, nown, k);
      }
    }
  }

  lemma CopiedStart(frames: seq<Frame>, d: nat, nd: nat, own: map<nat, Use>, nown: map<nat, Use>, free: set<nat>,
                    order: seq<nat>)
    requires Space(frames, d, own) && Fresh(frames, nd, nown, free, order) && own.Keys !! free
    requires IsTable(frames, nd) && forall i :: 0 <= i < NENTRIES ==> frames[nd].e[i].present == KernelDir(i)
    ensures Copied(frames, d, nd, 0)
  {
    assert nd in nown && nd in free && d in own;
  }

  // ---------- counting pages ----------

  /** Counted by numvp, which takes lazy pages too, or by numpp. */
  predicate Counts(p: Pte, lazy: bool) { p.present || (lazy && p.lazy) }

  /** Pages among the first `n` entries of a table. */
  function TabPages(e: seq<Pte>, n: nat, lazy: bool): nat
    requires n <= |e|
  {
    if n == 0 then 0 else TabPages(e, n - 1, lazy) + (if Counts(e[n - 1], lazy) then 1 else 0)
  }

  lemma {:induction false} MorePages(e: seq<Pte>, m: nat, n: nat)
    requires m <= n <= |e|
    ensures TabPages(e, m, false) <= TabPages(e, n, false)
    decreases n - m
  {
    if m < n { MorePages(e, m, n - 1); }
  }

  /** Frames for a copy of a user table: one for the table and one for each present page. */
  function TabFrames(e: seq<Pte>): nat
    requires |e| == NENTRIES
  {
    1 + TabPages(e, NENTRIES, false)
  }

  /** The user tables of a directory are tables. */
  ghost predicate Walkable(frames: seq<Frame>, d: nat) {
    IsTable(frames, d) && forall i :: 0 <= i < NUSER && frames[d].e[i].present ==> IsTable(frames, frames[d].e[i].frame)
  }

  /** Pages of the first `n` user tables. */
  ghost function DirPages(frames: seq<Frame>, d: nat, n: nat, lazy: bool): nat
    requires Walkable(frames, d) && n <= NUSER
  {
    if n == 0 then 0
    else
      var p := frames[d].e[n - 1];
      DirPages(frames, d, n - 1, lazy) + (if p.present then TabPages(frames[p.frame].e, NENTRIES, lazy) else 0)
  }

  /** The page numbers below `n` whose entry counts. */
  ghost function CountedPages(frames: seq<Frame>, d: nat, n: nat, lazy: bool): set<nat> {
    set v: nat | v < n && Counts(PteAt(frames, d, v), lazy)
  }

  lemma CountedNext(frames: seq<Frame>, d: nat, n: nat, lazy: bool)
    ensures |CountedPages(frames, d, n + 1, lazy)|
            == |CountedPages(frames, d, n, lazy)| + if Counts(PteAt(frames, d, n), lazy) then 1 else 0
  {
    hide PteAt;
    hide Counts;
    var s, s' := CountedPages(frames, d, n, lazy), CountedPages(frames, d, n + 1, lazy);
    assert s' == if Counts(PteAt(frames, d, n), lazy) then s + {n} else s;
  }

  /** Within one table. */
  lemma {:induction false} CountedInTable(frames: seq<Frame>, d: nat, i: nat, j: nat, lazy: bool)
    requires Walkable(frames, d) && i < NUSER && j <= NENTRIES
    ensures |CountedPages(frames, d, Index(i, j), lazy)|
            == |CountedPages(frames, d, Index(i, 0), lazy)|
               + if frames[d].e[i].present then TabPages(frames[frames[d].e[i].frame].e, j, lazy) else 0
  {
    if j > 0 {
      CountedInTable(frames, d, i, j - 1, lazy);
      CountedNext(frames, d, Index(i, j - 1), lazy);
      IndexUnique(i, j - 1, Index(i, j - 1));
      hide CountedPages;
    }
  }

  /** The counts of numvp and numpp are the numbers of pages that are mapped, or lazily reserved. */
  lemma {:induction false} CountedAll(frames: seq<Frame>, d: nat, n: nat, lazy: bool)
    requires Walkable(frames, d) && n <= NUSER
    ensures |CountedPages(frames, d, Index(n, 0), lazy)| == DirPages(frames, d, n, lazy)
  {
    if n == 0 {
      assert CountedPages(frames, d, 0, lazy) == {};
    } else {
      CountedAll(frames, d, n - 1, lazy);
      CountedInTable(frames, d, n - 1, NENTRIES, lazy);
      assert Index(n - 1, NENTRIES) == Index(n, 0);
      hide CountedPages;
      hide TabPages;
    }
  }

  /** Frames for copies of the first `n` user tables. */
  ghost function DirFrames(frames: seq<Frame>, d: nat, n: nat): nat
    requires Walkable(frames, d) && n <= NUSER
  {
    if n == 0 then 0
    else
      var p := frames[d].e[n - 1];
      DirFrames(frames, d, n - 1) + (if p.present then TabFrames(frames[p.frame].e) else 0)
  }

  lemma {:induction false} MoreFrames(frames: seq<Frame>, d: nat, m: nat, n: nat)
    requires Walkable(frames, d) && m <= n <= NUSER
    ensures DirFrames(frames, d, m) <= DirFrames(frames, d, n)
    decreases n - m
  {
    if m < n { MoreFrames(frames, d, m, n - 1); }
  }

  /** Tables for the kernel's directory entries below `n`. */
  function KernelFrames(n: nat): nat {
    if n <= NUSER then 0 else KernelFrames(n - 1) + (if KernelDir(n - 1) then 1 else 0)
  }

  lemma {:induction false} MoreKernel(m: nat, n: nat)
    requires m <= n
    ensures KernelFrames(m) <= KernelFrames(n)
    decreases n - m
  {
    if m < n { MoreKernel(m, n - 1); }
  }

  lemma SpaceWalkable(frames: seq<Frame>, d: nat, own: map<nat, Use>)
    requires Space(frames, d, own)
    ensures Walkable(frames, d)
  {
    forall i | 0 <= i < NUSER && frames[d].e[i].present
      ensures IsTable(frames, frames[d].e[i].frame)
    {
      assert TabOk(frames, own, i, frames[d].e[i]);
    }
  }

  lemma {:induction false} SameTabPages(frames: seq<Frame>, e: seq<Pte>, e': seq<Pte>, n: nat, lazy: bool)
    requires n <= |e| == |e'| && forall j :: 0 <= j < n ==> CopiedLeaf(frames, e[j], e'[j])
    ensures TabPages(e, n, lazy) == TabPages(e', n, lazy)
  {
    if n > 0 {
      SameTabPages(frames, e, e', n - 1, lazy);
      assert CopiedLeaf(frames, e[n - 1], e'[n - 1]);
    }
  }

  /** numvp and numpp give the same in parent and child. */
  lemma {:induction false} SamePages(frames: seq<Frame>, d: nat, nd: nat, n: nat, lazy: bool)
    requires Copied(frames, d, nd, NUSER) && n <= NUSER
    ensures Walkable(frames, d) && Walkable(frames, nd) && DirPages(frames, d, n, lazy) == DirPages(frames, nd, n, lazy)
  {
    forall i | 0 <= i < NUSER
      ensures (frames[d].e[i].present ==> IsTable(frames, frames[d].e[i].frame))
              && (frames[nd].e[i].present ==> IsTable(frames, frames[nd].e[i].frame))
    {
      assert CopiedAt(frames, d, nd, i);
    }
    if n > 0 {
      SamePages(frames, d, nd, n - 1, lazy);
      var p, q := frames[d].e[n - 1], frames[nd].e[n - 1];
      assert CopiedAt(frames, d, nd, n - 1);
      if p.present { SameTabPages(frames, frames[p.frame].e, frames[q.frame].e, NENTRIES, lazy); }
    }
  }

  /** A table of a space whose frames have not changed. */
  lemma SameTable(was: seq<Frame>, frames: seq<Frame>, d: nat, own: map<nat, Use>, i: nat, free: set<nat>)
    requires Space(was, d, own) && |frames| == |was| && own.Keys !! free && i < NUSER
    requires forall g :: 0 <= g < |frames| && g !in free ==> frames[g] == was[g]
    ensures frames[d] == was[d]
            && (was[d].e[i].present ==>
                  was[d].e[i].frame < |was| && frames[was[d].e[i].frame] == was[was[d].e[i].frame])
  {
    assert d in own && TabOk(was, own, i, was[d].e[i]);
  }

  lemma {:induction false} SameFrames(was: seq<Frame>, frames: seq<Frame>, d: nat, own: map<nat, Use>, free: set<nat>,
                                      n: nat)
    requires Space(was, d, own) && |frames| == |was| && own.Keys !! free && n <= NUSER
    requires forall g :: 0 <= g < |frames| && g !in free ==> frames[g] == was[g]
    ensures Walkable(was, d) && Walkable(frames, d) && DirFrames(frames, d, n) == DirFrames(was, d, n)
  {
    SpaceKept(was, frames, d, own);
    SpaceWalkable(was, d, own);
    SpaceWalkable(frames, d, own);
    hide Space;
    if n > 0 {
      SameTable(was, frames, d, own, n - 1, free);
      SameFrames(was, frames, d, own, free, n - 1);
    }
  }

  // ---------- growing a space ----------

  /** The frames that left the list have joined the space. */
  ghost predicate Taken(was: seq<nat>, order: seq<nat>, own: map<nat, Use>, own': map<nat, Use>) {
    SetOf(was) == SetOf(order) + (own'.Keys - own.Keys)
  }

  /** There is a table for the entry of page `v`. */
  ghost predicate HasTable(frames: seq<Frame>, d: nat, v: nat) {
    IsTable(frames, d) && v / NENTRIES < NUSER && frames[d].e[v / NENTRIES].present
  }

  /** Frame `t` is the table that holds the entry of page `v`. */
  ghost predicate TableAt(frames: seq<Frame>, d: nat, v: nat, t: int) {
    var i := v / NENTRIES;
    i < NUSER && IsTable(frames, d) && frames[d].e[i].present && frames[d].e[i].frame == t && t >= 0
      && IsTable(frames, t)
  }

  /** A page entered at an entry that was not present. */
  lemma LeafAddedTab(frames: seq<Frame>, d: nat, own: map<nat, Use>, v: nat, t: nat, p: Pte, k: nat)
    requires Space(frames, d, own) && TableAt(frames, d, v, t) && !frames[t].e[v % NENTRIES].present && k < NENTRIES
    requires p.present && !p.lazy && p.frame !in own && p.frame < |frames| && frames[p.frame].Page?
    ensures TabOk(WithPte(frames, t, v % NENTRIES, p), own[p.frame := Leaf(v / NENTRIES, v % NENTRIES)], k,
                  frames[d].e[k])
  {
    var i, j := v / NENTRIES, v % NENTRIES;
    LeafFacts(frames, d, own, i, j);
    var frames', own' := WithPte(frames, t, j, p), own[p.frame := Leaf(i, j)];
    var q := frames[d].e[k];
    assert TabOk(frames, own, k, q);
    if q.present && k < NUSER {
      forall m | 0 <= m < NENTRIES ensures LeafOk(frames', own', k, m, frames'[q.frame].e[m]) {
        assert LeafOk(frames, own, k, m, frames[q.frame].e[m]);
      }
    }
  }

  lemma LeafAdded(frames: seq<Frame>, d: nat, own: map<nat, Use>, v: nat, t: nat, p: Pte)
    requires Space(frames, d, own) && TableAt(frames, d, v, t) && !frames[t].e[v % NENTRIES].present
    requires p.present && !p.lazy && p.frame !in own && p.frame < |frames| && frames[p.frame].Page?
    ensures Space(WithPte(frames, t, v % NENTRIES, p), d, own[p.frame := Leaf(v / NENTRIES, v % NENTRIES)]) && t in own
            && own[t] == Tab(v / NENTRIES) && t != d
  {
    var i, j := v / NENTRIES, v % NENTRIES;
    LeafFacts(frames, d, own, i, j);
    var frames', own' := WithPte(frames, t, j, p), own[p.frame := Leaf(i, j)];
    forall k | 0 <= k < NENTRIES
      ensures TabOk(frames', own', k, frames'[d].e[k])
    {
      LeafAddedTab(frames, d, own, v, t, p, k);
    }
    hide TabOk;
    forall f | f in own' ensures UseOk(frames', d, f, own'[f]) {
      if f in own { assert UseOk(frames, d, f, own[f]); }
    }
  }

  lemma LeafAddedPte(frames: seq<Frame>, d: nat, own: map<nat, Use>, v: nat, t: nat, p: Pte, u: nat)
    requires Space(frames, d, own) && TableAt(frames, d, v, t)
    ensures PteAt(WithPte(frames, t, v % NENTRIES, p), d, u) == if u == v then p else PteAt(frames, d, u)
    ensures HasTable(WithPte(frames, t, v % NENTRIES, p), d, u) == HasTable(frames, d, u)
  {
    LeafFacts(frames, d, own, v / NENTRIES, v % NENTRIES);
    IndexSplit(u);
    IndexSplit(v);
    if u / NENTRIES < NUSER && frames[d].e[u / NENTRIES].present {
      LeafFacts(frames, d, own, u / NENTRIES, u % NENTRIES);
    }
  }

  lemma PageEntered(frames: seq<Frame>, d: nat, own: map<nat, Use>, v: nat, t: nat, p: Pte)
    requires Space(frames, d, own) && TableAt(frames, d, v, t) && !PteAt(frames, d, v).present
    requires p.present && !p.lazy && p.frame !in own && p.frame < |frames| && frames[p.frame].Page?
    ensures IsTable(frames, t) && t in own && own[t] == Tab(v / NENTRIES)
    ensures var frames' := WithPte(frames, t, v % NENTRIES, p);
            && Space(frames', d, own[p.frame := Leaf(v / NENTRIES, v % NENTRIES)])
            && (forall u: nat :: PteAt(frames', d, u) == if u == v then p else PteAt(frames, d, u))
            && (forall u: nat :: HasTable(frames', d, u) == HasTable(frames, d, u))
  {
    var frames' := WithPte(frames, t, v % NENTRIES, p);
    assert PteAt(frames, d, v) == frames[t].e[v % NENTRIES];
    LeafAdded(frames, d, own, v, t, p);
    forall u: nat
      ensures PteAt(frames', d, u) == (if u == v then p else PteAt(frames, d, u))
    {
      LeafAddedPte(frames, d, own, v, t, p, u);
    }
    forall u: nat
      ensures HasTable(frames', d, u) == HasTable(frames, d, u)
    {
      LeafAddedPte(frames, d, own, v, t, p, u);
    }
  }

  lemma TakenNew(was: seq<nat>, order: seq<nat>, own: map<nat, Use>, own': map<nat, Use>, g: nat)
    requires Taken(was, order, own, own')
    ensures g in own' ==> g in own || g in was
  {
    assert g in own' && g !in own ==> g in own'.Keys - own.Keys && g in SetOf(was);
  }

  function Zeros(): seq<int> { seq(PGSIZE, i => 0) }

  /** An entry for a fresh page of zeroes. */
  ghost predicate ZeroPage(frames: seq<Frame>, p: Pte) {
    p.present && !p.lazy && p.bits == USER_BITS && p.frame < |frames| && frames[p.frame] == Page(Zeros())
  }

  /** The pages in [lo, v) are new, all other entries are as before. */
  ghost predicate Mapped(was: seq<Frame>, frames: seq<Frame>, d: nat, lo: nat, v: nat) {
    forall u: nat :: if lo <= u < v then ZeroPage(frames, PteAt(frames, d, u))
      else PteAt(frames, d, u) == PteAt(was, d, u)
  }

  /** Frames for the pages in [lo, v): one a page, and one for each missing table. */
  ghost function FramesFor(was: seq<Frame>, d: nat, lo: nat, v: nat): nat {
    if v <= lo then 0
    else FramesFor(was, d, lo, v - 1) + 1 + (if (v - 1 == lo || (v - 1) % NENTRIES == 0)
                                             && !HasTable(was, d, v - 1) then 1 else 0)
  }

  lemma {:induction false} FramesMore(was: seq<Frame>, d: nat, lo: nat, v: nat, hi: nat)
    requires v <= hi
    ensures FramesFor(was, d, lo, v) <= FramesFor(was, d, lo, hi)
    decreases hi - v
  {
    if v < hi { FramesMore(was, d, lo, v, hi - 1); }
  }

  /** Tables there once the pages in [lo, v) are mapped. */
  ghost predicate TablesFor(was: seq<Frame>, frames: seq<Frame>, d: nat, lo: nat, v: nat) {
    forall u: nat :: HasTable(frames, d, u) == (HasTable(was, d, u) || (lo < v
          && lo / NENTRIES <= u / NENTRIES <= (v - 1) / NENTRIES))
  }

  /** Whether the next page needs a table. */
  lemma NextTable(was: seq<Frame>, frames: seq<Frame>, d: nat, lo: nat, v: nat)
    requires TablesFor(was, frames, d, lo, v) && lo <= v
    ensures HasTable(frames, d, v) == (HasTable(was, d, v) || (v != lo && v % NENTRIES != 0))
  {
    if v > lo { NextIndex(lo, v); }
  }

  lemma NextIndex(lo: nat, v: nat)
    requires lo < v
    ensures lo / NENTRIES <= (v - 1) / NENTRIES <= v / NENTRIES
            && (v / NENTRIES == (v - 1) / NENTRIES <==> v % NENTRIES != 0)
    ensures v / NENTRIES <= (v - 1) / NENTRIES + 1
  {}

  lemma TablesNext(was: seq<Frame>, frames: seq<Frame>, frames': seq<Frame>, d: nat, lo: nat, v: nat)
    requires TablesFor(was, frames, d, lo, v) && lo <= v
    requires forall u: nat :: HasTable(frames', d, u) == (HasTable(frames, d, u) || u / NENTRIES == v / NENTRIES)
    ensures TablesFor(was, frames', d, lo, v + 1)
  {
    if v > lo { NextIndex(lo, v); }
    forall u: nat
      ensures HasTable(frames', d, u) == (HasTable(was, d, u) || (lo / NENTRIES <= u / NENTRIES <= v / NENTRIES))
    {
      assert HasTable(frames, d, u)
             == (HasTable(was, d, u) || (lo < v && lo / NENTRIES <= u / NENTRIES <= (v - 1) / NENTRIES));
    }
  }

  lemma MappedNext(was: seq<Frame>, frames: seq<Frame>, frames': seq<Frame>, d: nat, own: map<nat, Use>, lo: nat,
                   v: nat, f: nat)
    requires Mapped(was, frames, d, lo, v) && lo <= v && Space(frames, d, own) && PagesKept(frames, frames', own)
    requires f < |frames'| && frames'[f] == Page(Zeros())
    requires forall u: nat :: PteAt(frames', d, u) == if u == v then Pte(f, true, false, USER_BITS)
             else PteAt(frames, d, u)
    ensures Mapped(was, frames', d, lo, v + 1)
  {
    forall u: nat
      ensures if lo <= u < v + 1 then ZeroPage(frames', PteAt(frames', d, u))
              else PteAt(frames', d, u) == PteAt(was, d, u)
    {
      assert if lo <= u < v then ZeroPage(frames, PteAt(frames, d, u)) else PteAt(frames, d, u) == PteAt(was, d, u);
      if lo <= u < v { PresentLeaf(frames, d, own, u); }
    }
  }

  lemma SpareInWas(was: seq<nat>, order: seq<nat>, own: map<nat, Use>, own': map<nat, Use>, f: nat)
    requires Taken(was, [] + order, own, own') && f in order
    ensures f in was
  {
    assert [] + order == order && f in SetOf(order) && f in SetOf(was);
  }

  /** Writing a frame the space does not own changes no entry and no table. */
  lemma SparePte(frames: seq<Frame>, d: nat, own: map<nat, Use>, f: nat, x: Frame)
    requires Space(frames, d, own) && f < |frames| && f !in own
    ensures forall u: nat :: PteAt(frames[f := x], d, u) == PteAt(frames, d, u)
    ensures forall u: nat :: HasTable(frames[f := x], d, u) == HasTable(frames, d, u)
    ensures forall u: nat :: PteAt(frames, d, u).present ==> PteAt(frames, d, u).frame != f
  {
    forall u: nat
      ensures PteAt(frames[f := x], d, u) == PteAt(frames, d, u)
              && (PteAt(frames, d, u).present ==> PteAt(frames, d, u).frame != f)
    {
      if HasTable(frames, d, u) { LeafFacts(frames, d, own, u / NENTRIES, u % NENTRIES); }
    }
  }

  lemma SpareMapped(was: seq<Frame>, frames: seq<Frame>, d: nat, own0: map<nat, Use>, own: map<nat, Use>, lo: nat,
                    v: nat, f: nat, x: Frame)
    requires Space(frames, d, own) && f < |frames| && f !in own && forall g :: g in own0 ==> g in own
    requires Mapped(was, frames, d, lo, v) && TablesFor(was, frames, d, lo, v) && PagesKept(was, frames, own0)
    ensures Mapped(was, frames[f := x], d, lo, v) && TablesFor(was, frames[f := x], d, lo, v)
            && PagesKept(was, frames[f := x], own0)
  {
    SparePte(frames, d, own, f, x);
    var frames' := frames[f := x];
    forall u: nat
      ensures HasTable(frames', d, u)
              == (HasTable(was, d, u) || (lo < v && lo / NENTRIES <= u / NENTRIES <= (v - 1) / NENTRIES))
    {
      assert HasTable(frames', d, u) == HasTable(frames, d, u);
    }
    hide Space;
    hide HasTable;
    forall u: nat
      ensures if lo <= u < v then ZeroPage(frames', PteAt(frames', d, u)) else PteAt(frames', d, u) == PteAt(was, d, u)
    {
      assert PteAt(frames', d, u) == PteAt(frames, d, u);
      assert if lo <= u < v then ZeroPage(frames, PteAt(frames, d, u)) else PteAt(frames, d, u) == PteAt(was, d, u);
    }
  }

  ghost predicate Spare(f: nat, own: map<nat, Use>, frames: seq<Frame>, order: seq<nat>) {
    f < |frames| && f !in own && f !in order && frames[f] == Page(Zeros())
  }

  lemma GrownKept(was: seq<Frame>, before: seq<Frame>, frames: seq<Frame>, own0: map<nat, Use>, own: map<nat, Use>,
                  own': map<nat, Use>,
                  o: seq<nat>, order: seq<nat>, worder: seq<nat>, f: nat)
    requires Taken(worder, [f] + o, own0, own) && Taken([f] + o, order, own, own') && PagesKept(was, before, own0)
             && PagesKept(before, frames, own)
    requires forall g :: g in own0 ==> g in own && own[g] == own0[g]
    requires forall g :: g in own ==> g in own'
    ensures Taken(worder, [] + order, own0, own') && PagesKept(was, frames, own0)
  {
    assert [] + order == order;
    assert own'.Keys - own0.Keys == (own'.Keys - own.Keys) + (own.Keys - own0.Keys);
  }

  /** A failed attempt to map changed nothing. */
  lemma FailKept(was: seq<Frame>, before: seq<Frame>, frames: seq<Frame>, d: nat, own0: map<nat, Use>,
                 own: map<nat, Use>, lo: nat, v: nat)
    requires Mapped(was, before, d, lo, v) && TablesFor(was, before, d, lo, v) && PagesKept(was, before, own0)
             && frames == before
    ensures Mapped(was, frames, d, lo, v) && TablesFor(was, frames, d, lo, v) && PagesKept(was, frames, own0)
  {}

  lemma OutsideKept(was: seq<Frame>, before: seq<Frame>, frames: seq<Frame>, own0: map<nat, Use>, own: map<nat, Use>,
                    o: seq<nat>, worder: seq<nat>, f: nat)
    requires Taken(worder, [f] + o, own0, own) && |was| == |before| == |frames|
    requires forall g :: 0 <= g < |was| && g !in own0 && g !in worder ==> before[g] == was[g]
    requires forall g :: 0 <= g < |was| && g !in own && g !in o ==> frames[g] == before[g]
    ensures forall g :: 0 <= g < |was| && g !in own0 && g !in worder ==> frames[g] == was[g]
  {
    forall g | 0 <= g < |was| && g !in own0 && g !in worder ensures frames[g] == was[g] {
      TakenNew(worder, [f] + o, own0, own, g);
      assert g in [f] + o ==> g in SetOf([f] + o) && g in SetOf(worder);
    }
  }

  /** Nothing in [lo, hi) is present, all other entries are as before. */
  ghost predicate Undone(was: seq<Frame>, frames: seq<Frame>, d: nat, lo: nat, hi: nat) {
    forall u: nat :: if lo <= u < hi then !PteAt(frames, d, u).present else PteAt(frames, d, u) == PteAt(was, d, u)
  }

  /** Only tables were added. */
  ghost predicate Extends(own0: map<nat, Use>, own: map<nat, Use>) {
    && (forall g :: g in own0 ==> g in own && own[g] == own0[g])
    && (forall g :: g in own && g !in own0 ==> own[g].Tab?)
  }

  /** What a space keeps when the pages in [lo, hi) go. */
  function TrimTo(own: map<nat, Use>, lo: nat, hi: nat): map<nat, Use> {
    map g | g in own && !Within(own[g], lo, hi) :: own[g]
  }

  /** No frame is lost or made: free and owned frames together are the same. */
  ghost predicate Balanced(was: seq<nat>, order: seq<nat>, own: map<nat, Use>, own': map<nat, Use>) {
    SetOf(was) + own.Keys == SetOf(order) + own'.Keys
  }

  /** The first present page of [lo, hi), or hi. */
  ghost function FirstPresent(frames: seq<Frame>, d: nat, lo: nat, hi: nat): (u: nat)
    ensures lo <= hi ==> lo <= u <= hi
    ensures u < hi ==> PteAt(frames, d, u).present
    ensures forall w: nat :: lo <= w < u ==> !PteAt(frames, d, w).present
    decreases hi - lo
  {
    if lo >= hi || PteAt(frames, d, lo).present then lo else FirstPresent(frames, d, lo + 1, hi)
  }

  /** Where allocuvm gets to before a present page stops it. */
  ghost function Reach(frames: seq<Frame>, d: nat, lo: nat, hi: nat): nat {
    var u := FirstPresent(frames, d, lo, hi); if u < hi then u + 1 else hi
  }

  /** At a present page, with a frame for it. */
  lemma RemapReached(was: seq<Frame>, d: nat, lo: nat, v: nat, hi: nat)
    requires lo <= v < hi && PteAt(was, d, v).present && forall w: nat :: lo <= w < v ==> !PteAt(was, d, w).present
    ensures FirstPresent(was, d, lo, hi) == v && Reach(was, d, lo, hi) == v + 1
    ensures FramesFor(was, d, lo, v + 1) == FramesFor(was, d, lo, v) + 1
  {
    var u := FirstPresent(was, d, lo, hi);
    assert u <= v;
    assert HasTable(was, d, v);
  }

  lemma NoRemap(was: seq<Frame>, d: nat, lo: nat, v: nat, hi: nat)
    requires lo <= v <= hi && forall w: nat :: lo <= w < v ==> !PteAt(was, d, w).present
    ensures v <= FirstPresent(was, d, lo, hi) && (v < hi ==> v + 1 <= Reach(was, d, lo, hi))
    ensures v == hi ==> FirstPresent(was, d, lo, hi) == hi == Reach(was, d, lo, hi)
  {
    hide PteAt;
    var u := FirstPresent(was, d, lo, hi);
    assert u < hi ==> PteAt(was, d, u).present;
  }

  /** With no page of the range present, rolling back gives the space its frames back. */
  lemma TrimNothing(was: seq<Frame>, d: nat, own: map<nat, Use>, lo: nat, hi: nat)
    requires Space(was, d, own) && lo <= hi && FirstPresent(was, d, lo, hi) == hi
    ensures TrimTo(own, lo, hi) == own
  {
    forall g | g in own ensures !Within(own[g], lo, hi) { OldPage(was, d, own, g, lo, hi); }
  }

  lemma BalancedTaken(was: seq<nat>, order: seq<nat>, own: map<nat, Use>, own': map<nat, Use>)
    requires Balanced(was, order, own, own') && Apart(own, was) && Apart(own', order) && own.Keys <= own'.Keys
    ensures Taken(was, order, own, own')
  {
    forall f ensures f in SetOf(was) <==> f in SetOf(order) + (own'.Keys - own.Keys) {
      assert f in SetOf(was) + own.Keys <==> f in SetOf(order) + own'.Keys;
    }
  }

  lemma UndoneEntries(was: seq<Frame>, before: seq<Frame>, frames: seq<Frame>, d: nat, lo: nat, v: nat, hi: nat)
    requires Mapped(was, before, d, lo, v) && Cleared(before, frames, d, lo, hi) && lo <= v <= hi
    ensures Undone(was, frames, d, lo, hi)
  {
    forall u: nat
      ensures if lo <= u < hi then !PteAt(frames, d, u).present else PteAt(frames, d, u) == PteAt(was, d, u)
    {
      assert PteAt(frames, d, u) == if lo <= u < hi && PteAt(before, d, u).present then ZERO else PteAt(before, d, u);
      assert if lo <= u < v then ZeroPage(before, PteAt(before, d, u)) else PteAt(before, d, u) == PteAt(was, d, u);
    }
  }

  lemma OldPage(was: seq<Frame>, d: nat, own0: map<nat, Use>, g: nat, lo: nat, hi: nat)
    requires Space(was, d, own0) && g in own0 && forall u: nat :: lo <= u < hi ==> !PteAt(was, d, u).present
    ensures !Within(own0[g], lo, hi)
  {
    assert UseOk(was, d, g, own0[g]);
    if own0[g].Leaf? {
      var u := Index(own0[g].i, own0[g].j);
      IndexUnique(own0[g].i, own0[g].j, u);
      assert PteAt(was, d, u).present;
    }
  }

  lemma UndoneFacts(was: seq<Frame>, before: seq<Frame>, frames: seq<Frame>, d: nat, own0: map<nat, Use>,
                    own: map<nat, Use>, left: map<nat, Use>, lo: nat, v: nat, hi: nat)
    requires Mapped(was, before, d, lo, v) && Cleared(before, frames, d, lo, hi) && lo <= v <= hi
             && Trimmed(own, left, lo, hi)
    requires forall g :: g in own0 ==> g in own && own[g] == own0[g]
    requires forall g :: g in own && g !in own0 ==> own[g].Tab? || Within(own[g], lo, v)
    requires PagesKept(was, before, own0) && PagesKept(before, frames, left)
    ensures Undone(was, frames, d, lo, hi) && Extends(TrimTo(own0, lo, hi), left)
            && PagesKept(was, frames, TrimTo(own0, lo, hi))
  {
    UndoneEntries(was, before, frames, d, lo, v, hi);
  }

  lemma BackBalanced(worder: seq<nat>, o: seq<nat>, order: seq<nat>, own0: map<nat, Use>, own: map<nat, Use>,
                     left: map<nat, Use>, spare: seq<nat>)
    requires Taken(worder, spare + o, own0, own) && Returned(o, order, own, left) && left.Keys <= own.Keys
             && own0.Keys <= own.Keys
    ensures Balanced(worder, spare + order, own0, left)
  {
    assert SetOf(spare + o) == SetOf(spare) + SetOf(o) && SetOf(spare + order) == SetOf(spare) + SetOf(order);
    assert (own.Keys - own0.Keys) + own0.Keys == own.Keys && (own.Keys - left.Keys) + left.Keys == own.Keys;
    calc {
      SetOf(worder) + own0.Keys;
      SetOf(spare) + SetOf(o) + own.Keys;
      SetOf(spare) + SetOf(order) + left.Keys;
    }
  }

  lemma OutsideBack(was: seq<Frame>, before: seq<Frame>, frames: seq<Frame>, own0: map<nat, Use>, own: map<nat, Use>,
                    o: seq<nat>, worder: seq<nat>)
    requires Taken(worder, o, own0, own) && |was| == |before| == |frames|
    requires forall g :: 0 <= g < |was| && g !in own0 && g !in worder ==> before[g] == was[g]
    requires forall g :: 0 <= g < |was| && g !in own ==> frames[g] == before[g]
    ensures forall g :: 0 <= g < |was| && g !in own0 && g !in worder ==> frames[g] == was[g]
    ensures forall g :: g in o ==> g in worder
  {
    forall g | g in o ensures g in worder { assert g in SetOf(o) && g in SetOf(worder); }
    forall g | 0 <= g < |was| && g !in own0 && g !in worder
      ensures frames[g] == was[g]
    {
      TakenNew(worder, o, own0, own, g);
    }
  }

  lemma SpareBack(o: seq<nat>, order: seq<nat>, own: map<nat, Use>, left: map<nat, Use>, f: nat)
    requires Returned(o, order, own, left) && f !in o && f !in own && left.Keys <= own.Keys
    ensures f !in order && f !in left
  {
    assert f in order ==> f in SetOf(order);
  }

  lemma SpareUndone(was: seq<Frame>, frames: seq<Frame>, d: nat, own0: map<nat, Use>, left: map<nat, Use>, lo: nat,
                    hi: nat, f: nat, x: Frame)
    requires Space(frames, d, left) && f < |frames| && f !in left && Undone(was, frames, d, lo, hi)
             && Extends(own0, left) && PagesKept(was, frames, own0)
    ensures Space(frames[f := x], d, left) && Undone(was, frames[f := x], d, lo, hi)
            && PagesKept(was, frames[f := x], own0)
  {
    SparePte(frames, d, left, f, x);
    SpaceKept(frames, frames[f := x], d, left);
    var frames' := frames[f := x];
    forall u: nat
      ensures if lo <= u < hi then !PteAt(frames', d, u).present else PteAt(frames', d, u) == PteAt(was, d, u)
    {
      assert PteAt(frames', d, u) == PteAt(frames, d, u);
      assert if lo <= u < hi then !PteAt(frames, d, u).present else PteAt(frames, d, u) == PteAt(was, d, u);
    }
  }

  lemma PagesBound(a: nat, b: nat)
    requires a <= b < KERNBASE
    ensures Pages(a) <= Pages(b) <= NUSER * NENTRIES
  {}

  lemma GrowStart(was: seq<Frame>, order: seq<nat>, d: nat, own: map<nat, Use>, lo: nat)
    ensures Taken(order, [] + order, own, own) && PagesKept(was, was, own) && Mapped(was, was, d, lo, lo)
            && TablesFor(was, was, d, lo, lo) && FramesFor(was, d, lo, lo) == 0
  {
    assert [] + order == order;
  }

  lemma TakenOne(was: seq<nat>, order: seq<nat>, own: map<nat, Use>, i: nat, t: nat)
    requires was == [t] + order && t !in own
    ensures Taken(was, order, own, Joined(own, i, t, map[]))
  {
    JoinedKeys(own, i, t, map[]);
    assert Joined(own, i, t, map[]).Keys - own.Keys == {t};
    assert SetOf(was) == SetOf(order) + {t};
  }

  lemma TakenPage(was: seq<nat>, order: seq<nat>, own: map<nat, Use>, own': map<nat, Use>, f: nat, u: Use)
    requires Taken(was, order, own, own') && f !in own
    ensures Taken([f] + was, order, own, own'[f := u])
  {
    assert SetOf([f] + was) == SetOf(was) + {f};
    assert own'[f := u].Keys - own.Keys == (own'.Keys - own.Keys) + {f};
  }

  lemma BlankLeaves(frames: seq<Frame>, t: nat, i: nat)
    requires t < |frames| && frames[t] == Table(Blank())
    ensures Leaves(frames, t, i, NENTRIES, map[])
  {}

  lemma BlankPte(was: seq<Frame>, frames: seq<Frame>, d: nat, own: map<nat, Use>, i: nat, t: nat, u: nat)
    requires Space(was, d, own) && i < NUSER && !was[d].e[i].present && t < |was| && t !in own && t != d
    requires frames == WithPte(was[t := Table(Blank())], d, i, Pte(t, true, false, USER_BITS))
    ensures PteAt(frames, d, u) == PteAt(was, d, u)
  {
    var k := u / NENTRIES;
    if k < NUSER && k != i && was[d].e[k].present { LeafFacts(was, d, own, k, u % NENTRIES); }
  }

  /** Trimmed of more than asked for, when there was nothing more. */
  lemma TrimLess(own: map<nat, Use>, left: map<nat, Use>, lo: nat, v: nat, hi: nat)
    requires Trimmed(own, left, lo, v)
    ensures hi <= v ==> (forall f :: f in own && Within(own[f], lo, hi) ==> f !in left)
  {}

  lemma ReturnedMore(was: seq<nat>, order: seq<nat>, own: map<nat, Use>, left: map<nat, Use>, f: nat)
    requires Returned(was, order, own, left) && f in left && left.Keys <= own.Keys
    ensures Returned(was, [f] + order, own, left - {f})
  {
    assert SetOf([f] + order) == SetOf(order) + {f};
    assert own.Keys - (left - {f}).Keys == (own.Keys - left.Keys) + {f};
  }

  /** With all user pages gone only tables and the directory are left. */
  lemma NoLeaves(frames: seq<Frame>, d: nat, own: map<nat, Use>, left: map<nat, Use>)
    requires Space(frames, d, left) && Trimmed(own, left, 0, NUSER * NENTRIES)
    ensures left.Keys <= own.Keys
            && forall f :: f in left ==>
                 !left[f].Leaf? && (left[f].Tab? ==> left[f].i < NENTRIES) && (left[f].Dir? ==> f == d)
  {
    forall f | f in left
      ensures !left[f].Leaf? && (left[f].Tab? ==> left[f].i < NENTRIES) && (left[f].Dir? ==> f == d)
    {
      assert UseOk(frames, d, f, left[f]);
    }
  }

  lemma TabFacts(frames: seq<Frame>, d: nat, own: map<nat, Use>, i: nat)
    requires Space(frames, d, own) && i < NENTRIES
    ensures frames[d].e[i].present ==>
              var t := frames[d].e[i].frame; t in own && own[t] == Tab(i) && t < |frames| && t != d
    ensures forall f :: f in own && own[f] == Tab(i) ==> frames[d].e[i].present && frames[d].e[i].frame == f
  {
    assert TabOk(frames, own, i, frames[d].e[i]);
    forall f | f in own && own[f] == Tab(i)
      ensures frames[d].e[i].present && frames[d].e[i].frame == f
    {
      assert UseOk(frames, d, f, own[f]);
    }
  }

  lemma ReturnedAll(was: seq<nat>, own: map<nat, Use>, left: map<nat, Use>, d: nat)
    requires left.Keys <= own.Keys && d in left
    ensures SetOf(was) + (own.Keys - left.Keys) + (left.Keys - {d}) + {d} == SetOf(was) + own.Keys
    ensures forall o: seq<nat> :: SetOf([d] + o) == SetOf(o) + {d}
  {
    forall o: seq<nat> ensures SetOf([d] + o) == SetOf(o) + {d} {
      forall x ensures x in SetOf([d] + o) <==> x in SetOf(o) + {d} {}
    }
  }

  lemma SpaceDir(frames: seq<Frame>, d: nat, own: map<nat, Use>)
    requires Space(frames, d, own)
    ensures IsTable(frames, d) && d in own && own[d] == Dir
  {}

  /** A space depends only on the frames it owns. */
  lemma SpaceKept(frames: seq<Frame>, frames': seq<Frame>, d: nat, own: map<nat, Use>)
    requires Space(frames, d, own) && |frames'| == |frames| && forall f :: f in own && f < |frames| ==>
             frames'[f] == frames[f]
    ensures Space(frames', d, own)
  {
    forall i | 0 <= i < NENTRIES ensures TabOk(frames', own, i, frames'[d].e[i]) {
      assert TabOk(frames, own, i, frames[d].e[i]);
      var p := frames[d].e[i];
      if p.present && i < NUSER {
        forall j | 0 <= j < NENTRIES ensures LeafOk(frames', own, i, j, frames'[p.frame].e[j]) {
          assert LeafOk(frames, own, i, j, frames[p.frame].e[j]);
        }
      }
    }
    forall f | f in own ensures UseOk(frames', d, f, own[f]) {
      assert UseOk(frames, d, f, own[f]);
      if own[f].Leaf? { assert TabOk(frames, own, own[f].i, frames[d].e[own[f].i]); }
    }
  }
}
