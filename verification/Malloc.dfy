/** The user-level allocator: a circular free list in address order, with free, morecore and malloc
    over an array of headers. Addresses count header-sized units; the static header `base` is unit
    0 and everything obtained from sbrk lies above it. */
module Malloc {

  import opened Params
  import opened Wrap

  const HEADER := 8 // sizeof(Header)
  const MAXUNITS := 0x1000_0000 // sbrk takes a signed number of bytes

  /** The headers, the starts of the free blocks (base included), the sizes of the allocated
      blocks, and for every unit obtained from sbrk the start of the block it belongs to. */
  datatype Heap = Heap(ptr: seq<nat>, size: seq<nat>, free: set<nat>, live: map<nat, nat>, own: map<nat, nat>)

  /** The list: every free block points to the next one up, the last to base. */
  ghost predicate Circular(h: Heap) {
    && 0 in h.free && |h.ptr| == |h.size|
    && (forall a :: a in h.free ==> a < |h.ptr|)
    && (forall a {:trigger h.ptr[a]} :: a in h.free ==> h.ptr[a] in h.free && (h.ptr[a] == 0 || a < h.ptr[a]))
    && (forall a, b {:trigger h.ptr[a], b in h.free} :: a in h.free && b in h.free && a < b ==>
          h.ptr[a] != 0 && h.ptr[a] <= b)
  }

  /** Block `a` ends before the next free block starts. */
  ghost predicate Gap(h: Heap, a: nat)
    requires a < |h.ptr| == |h.size|
  {
    h.ptr[a] == 0 || a + h.size[a] < h.ptr[a]
  }

  ghost predicate Sized(h: Heap)
    requires Circular(h)
  {
    && h.size[0] == 0
    && (forall a :: a in h.free ==> a + h.size[a] <= |h.ptr| && (a != 0 ==> 1 <= h.size[a]))
    && (forall a {:trigger h.ptr[a]} :: a in h.free ==> h.ptr[a] == 0 || a + h.size[a] <= h.ptr[a])
  }

  /** Free blocks do not touch: whatever could be merged has been. */
  ghost predicate Coalesced(h: Heap)
    requires Circular(h)
  {
    forall a {:trigger Gap(h, a)} :: a in h.free ==> Gap(h, a)
  }

  ghost predicate IsBlock(h: Heap, a: nat) { a in h.live || (a in h.free && a != 0) }

  ghost predicate Inside(h: Heap, a: nat, u: nat) { a < |h.size| && a <= u < a + h.size[a] }

  /** Allocated and free blocks partition the units obtained from sbrk. */
  ghost predicate Partition(h: Heap) {
    && |h.ptr| == |h.size|
    && (forall a :: a in h.live ==>
          a !in h.free && 0 < a && 1 <= h.live[a] && a + h.live[a] <= |h.size| && h.size[a] == h.live[a])
    && (forall a: nat, u: nat :: Inside(h, a, u) && IsBlock(h, a) ==> u in h.own && h.own[u] == a)
    && (forall u :: u in h.own ==> 0 < u < |h.size| && IsBlock(h, h.own[u]) && Inside(h, h.own[u], u))
  }

  /** The list between operations. */
  ghost predicate Ok(h: Heap) { Circular(h) && Sized(h) && Coalesced(h) && Partition(h) }

  /** The list while free is merging. */
  ghost predicate Loose(h: Heap) { Circular(h) && Sized(h) && Partition(h) }

  /** No two blocks share a unit. */
  lemma Disjoint(h: Heap, a: nat, b: nat, u: nat)
    requires Partition(h) && IsBlock(h, a) && IsBlock(h, b) && Inside(h, a, u) && Inside(h, b, u)
    ensures a == b
  {}

  // ---------- free ----------

  /** `p` is the free block after which `bp` belongs. */
  ghost predicate Precedes(h: Heap, p: nat, bp: nat) {
    p in h.free && p < |h.ptr| && p < bp && (h.ptr[p] == 0 || bp < h.ptr[p])
  }

  /** Put an allocated block into the list, without merging. */
  ghost function Inserted(h: Heap, bp: nat, p: nat): Heap
    requires bp < |h.ptr| && p < |h.ptr|
  {
    h.(ptr := h.ptr[bp := h.ptr[p]][p := bp], free := h.free + {bp}, live := h.live - {bp})
  }

  lemma InsertedLoose(h: Heap, bp: nat, p: nat)
    requires Ok(h) && bp in h.live && Precedes(h, p, bp)
    ensures bp < |h.ptr| && Loose(Inserted(h, bp, p))
    ensures forall a :: a in h.free && a != p ==> Gap(Inserted(h, bp, p), a)
  {
    var g := Inserted(h, bp, p);
    var n := h.ptr[p];
    if p != 0 && bp < p + h.size[p] { assert Inside(h, p, bp) && Inside(h, bp, bp); Disjoint(h, p, bp, bp); }
    if n != 0 && n < bp + h.size[bp] { assert Inside(h, n, n) && Inside(h, bp, n); Disjoint(h, n, bp, n); }
    InsertedCircular(h, bp, p);
    forall a: nat, u: nat | Inside(g, a, u) && IsBlock(g, a) ensures u in g.own && g.own[u] == a {
      assert Inside(h, a, u) && IsBlock(h, a);
    }
    forall u | u in g.own ensures 0 < u < |g.size| && IsBlock(g, g.own[u]) && Inside(g, g.own[u], u) {
      assert IsBlock(h, h.own[u]) && Inside(h, h.own[u], u);
    }
    forall a | a in h.free && a != p ensures Gap(g, a) { assert Gap(h, a); }
  }

  lemma InsertedCircular(h: Heap, bp: nat, p: nat)
    requires Circular(h) && bp < |h.ptr| && bp !in h.free && Precedes(h, p, bp)
    ensures Circular(Inserted(h, bp, p))
  {
    var g := Inserted(h, bp, p);
    forall a, b | a in g.free && b in g.free && a < b ensures g.ptr[a] != 0 && g.ptr[a] <= b {
      if a != bp && a != p {
        assert h.ptr[a] == g.ptr[a];
        if b == bp { assert a < p; }
      }
    }
  }

  /** Merge free block `a` with the free block right behind it. */
  ghost function Merged(h: Heap, a: nat): Heap
    requires a < |h.ptr| == |h.size| && h.ptr[a] < |h.ptr|
  {
    var n := h.ptr[a];
    h.(ptr := h.ptr[a := h.ptr[n]], size := h.size[a := h.size[a] + h.size[n]], free := h.free - {n},
       own := map u | u in h.own :: if h.own[u] == n then a else h.own[u])
  }

  lemma MergedLoose(h: Heap, a: nat)
    requires Loose(h) && a in h.free && a != 0 && h.ptr[a] != 0 && a + h.size[a] == h.ptr[a]
    ensures Loose(Merged(h, a)) && Merged(h, a).own.Keys == h.own.Keys
    ensures forall b :: b in h.free && b != a && b != h.ptr[a] && Gap(h, b) ==> Gap(Merged(h, a), b)
    ensures Gap(h, h.ptr[a]) ==> Gap(Merged(h, a), a)
  {
    var n := h.ptr[a];
    var g := Merged(h, a);
    MergedCircular(h, a);
    forall b: nat, u: nat | Inside(g, b, u) && IsBlock(g, b) ensures u in g.own && g.own[u] == b {
      if b == a && h.size[a] <= u - a {
        assert Inside(h, n, u) && IsBlock(h, n);
      } else {
        assert Inside(h, b, u) && IsBlock(h, b);
      }
    }
    forall u | u in g.own ensures 0 < u < |g.size| && IsBlock(g, g.own[u]) && Inside(g, g.own[u], u) {
      assert IsBlock(h, h.own[u]) && Inside(h, h.own[u], u);
    }
  }

  lemma MergedCircular(h: Heap, a: nat)
    requires Circular(h) && a in h.free && h.ptr[a] != 0
    ensures Circular(Merged(h, a)) && h.ptr[a] < |h.ptr|
  {}

  lemma PartitionLive(h: Heap, a: nat)
    requires Partition(h) && a in h.live
    ensures a !in h.free && 0 < a && 1 <= h.live[a] && a + h.live[a] <= |h.size| && h.size[a] == h.live[a]
  {}

  /** Merge `bp`, just inserted, with the free block above if they touch. */
  ghost function Above(h: Heap, bp: nat): Heap
    requires bp < |h.ptr| == |h.size| && h.ptr[bp] < |h.ptr|
  {
    if h.ptr[bp] != 0 && bp + h.size[bp] == h.ptr[bp] then Merged(h, bp) else h
  }

  /** Merge it with the free block `p` below if they touch. */
  ghost function Below(h: Heap, bp: nat, p: nat): Heap
    requires p < |h.ptr| == |h.size| && h.ptr[p] < |h.ptr|
  {
    if p != 0 && p + h.size[p] == bp then Merged(h, p) else h
  }

  /** Only the gap after `p` may still be missing. */
  ghost predicate Pending(h: Heap, bp: nat, p: nat) {
    && Loose(h) && p in h.free && bp in h.free && p < bp && h.ptr[p] == bp
    && (forall a :: a in h.free && a != p ==> Gap(h, a))
  }

  lemma AboveOk(h: Heap, bp: nat, p: nat)
    requires Ok(h) && bp in h.live && Precedes(h, p, bp)
    ensures bp < |h.ptr| && Loose(Inserted(h, bp, p))
    ensures var g := Above(Inserted(h, bp, p), bp);
            Pending(g, bp, p) && g.own.Keys == h.own.Keys && g.live == h.live - {bp} && g.size[bp] >= h.size[bp]
  {
    InsertedLoose(h, bp, p);
    var h1 := Inserted(h, bp, p);
    if h1.ptr[bp] != 0 && bp + h1.size[bp] == h1.ptr[bp] {
      MergedLoose(h1, bp);
      hide Partition;
      assert Gap(h1, h1.ptr[bp]);
    } else {
      hide Partition;
      assert Gap(h1, bp);
    }
  }

  lemma BelowOk(h: Heap, bp: nat, p: nat)
    requires Pending(h, bp, p)
    ensures var g := Below(h, bp, p); Ok(g) && g.own.Keys == h.own.Keys && g.live == h.live && p in g.free
  {
    hide Partition;
    if p != 0 && p + h.size[p] == bp {
      MergedLoose(h, p);
    } else {
      assert Gap(h, p);
    }
  }

  /** The freed units are in a free block at least as large. */
  lemma BelowBlock(h: Heap, bp: nat, p: nat, n: nat) returns (a: nat)
    requires Pending(h, bp, p) && n <= h.size[bp]
    ensures var g := Below(h, bp, p); a in g.free && a < |g.size| && n <= g.size[a]
  {
    hide Partition;
    a := if p != 0 && p + h.size[p] == bp then p else bp;
  }

  // ---------- malloc's two ways to take a block ----------

  /** Exact fit: block `p`, behind `prev`, leaves the list. */
  ghost function Unlinked(h: Heap, prev: nat, p: nat): Heap
    requires prev < |h.ptr| && p < |h.ptr| == |h.size|
  {
    h.(ptr := h.ptr[prev := h.ptr[p]], free := h.free - {p}, live := h.live[p := h.size[p]])
  }

  /** The next free block up is the successor in the list. */
  lemma Next(h: Heap, a: nat, b: nat)
    requires Circular(h) && a in h.free && b in h.free && a < b
    ensures a < h.ptr[a] <= b && h.ptr[a] in h.free
  {}

  /** Between `prev` and what follows `p` only `p` is left out. */
  lemma AfterNext(h: Heap, prev: nat, p: nat, b: nat)
    requires Circular(h) && prev in h.free && p == h.ptr[prev] != 0 && b in h.free && prev < b != p
    ensures p in h.free && p < |h.ptr| && h.ptr[p] != 0 && h.ptr[p] <= b
  {
    Next(h, prev, b);
    Next(h, p, b);
  }

  lemma UnlinkedCircular(h: Heap, prev: nat, p: nat)
    requires Circular(h) && prev in h.free && p == h.ptr[prev] != 0
    ensures p < |h.ptr| && prev < p && Circular(Unlinked(h, prev, p)) && h.ptr[p] in h.free
            && (h.ptr[p] == 0 || p < h.ptr[p])
  {
    var g := Unlinked(h, prev, p);
    assert h.ptr[p] in h.free;
    forall a | a in h.free && a != prev ensures h.ptr[a] != p {
      if a < prev { Next(h, a, prev); }
    }
    forall a, b | a in g.free && b in g.free && a < b ensures g.ptr[a] != 0 && g.ptr[a] <= b {
      if a == prev { AfterNext(h, prev, p, b); }
    }
  }

  lemma UnlinkedGap(h: Heap, prev: nat, p: nat, a: nat)
    requires Circular(h) && Sized(h) && Coalesced(h) && prev in h.free && p == h.ptr[prev] != 0 && a in h.free && a != p
             && p < |h.ptr|
    ensures Gap(Unlinked(h, prev, p), a)
  {
    assert Gap(h, a) && Gap(h, p);
  }

  lemma UnlinkedList(h: Heap, prev: nat, p: nat)
    requires Circular(h) && Sized(h) && Coalesced(h) && prev in h.free && p == h.ptr[prev] != 0
    ensures p < |h.ptr| && Circular(Unlinked(h, prev, p)) && Sized(Unlinked(h, prev, p))
            && Coalesced(Unlinked(h, prev, p))
  {
    var g := Unlinked(h, prev, p);
    UnlinkedCircular(h, prev, p);
    assert 0 in h.free && forall a :: a in h.free ==> a < |h.ptr|;
    hide Circular;
    forall a | a in g.free ensures Gap(g, a) { UnlinkedGap(h, prev, p, a); }
  }

  lemma UnlinkedPartition(h: Heap, prev: nat, p: nat)
    requires Partition(h) && prev < |h.ptr| && p < |h.ptr| && p in h.free && p != 0 && 1 <= h.size[p]
             && p + h.size[p] <= |h.size|
    ensures Partition(Unlinked(h, prev, p))
  {
    var g := Unlinked(h, prev, p);
    forall a: nat, u: nat | Inside(g, a, u) && IsBlock(g, a) ensures u in g.own && g.own[u] == a {
      assert Inside(h, a, u) && IsBlock(h, a);
    }
    forall u | u in g.own ensures 0 < u < |g.size| && IsBlock(g, g.own[u]) && Inside(g, g.own[u], u) {
      assert IsBlock(h, h.own[u]) && Inside(h, h.own[u], u);
    }
  }

  lemma UnlinkedOk(h: Heap, prev: nat, p: nat)
    requires Ok(h) && prev in h.free && p == h.ptr[prev] != 0
    ensures prev < p < |h.ptr| && Ok(Unlinked(h, prev, p))
    ensures p !in h.live && 1 <= h.size[p]
  {
    assert p in h.free && p < |h.ptr|;
    UnlinkedPartition(h, prev, p);
    assert p !in h.live by { if p in h.live { PartitionLive(h, p); } }
    hide Partition;
    UnlinkedList(h, prev, p);
    hide Coalesced;
  }

  /** Too large: the last `n` units of free block `p` become an allocated block. */
  ghost function Carved(h: Heap, p: nat, n: nat): Heap
    requires p < |h.ptr| == |h.size| && n <= h.size[p] && p + h.size[p] - n < |h.size|
  {
    var q := p + h.size[p] - n;
    h.(size := h.size[p := h.size[p] - n][q := n], live := h.live[q := n],
       own := map u | u in h.own :: if q <= u < q + n then q else h.own[u])
  }

  lemma CarvedGap(h: Heap, p: nat, n: nat, a: nat)
    requires Circular(h) && Sized(h) && Coalesced(h) && p in h.free && 1 <= n < h.size[p] && a in h.free
    requires p + h.size[p] - n < |h.size| && p + h.size[p] - n !in h.free
    ensures Gap(Carved(h, p, n), a) && Carved(h, p, n).size[a] <= h.size[a]
    ensures a != 0 ==> 1 <= Carved(h, p, n).size[a]
  {
    assert Gap(h, a);
  }

  lemma CarvedList(h: Heap, p: nat, n: nat)
    requires Circular(h) && Sized(h) && Coalesced(h) && p in h.free && p != 0 && 1 <= n < h.size[p]
    requires p + h.size[p] - n < |h.size| && p + h.size[p] - n !in h.free
    ensures Circular(Carved(h, p, n)) && Sized(Carved(h, p, n)) && Coalesced(Carved(h, p, n))
  {
    var g := Carved(h, p, n);
    assert Circular(g) && g.size[0] == 0;
    forall a | a in h.free ensures Gap(g, a) && a + g.size[a] <= |g.ptr| && (a != 0 ==> 1 <= g.size[a]) {
      CarvedGap(h, p, n, a);
    }
    hide Circular;
  }

  /** The cut-off part of a free block starts no other block. */
  lemma CutIsNew(h: Heap, p: nat, n: nat)
    requires Circular(h) && Sized(h) && Partition(h) && p in h.free && p != 0 && 1 <= n < h.size[p]
    ensures p + h.size[p] - n < |h.size| && p + h.size[p] - n !in h.live && p + h.size[p] - n !in h.free
  {
    var q := p + h.size[p] - n;
    assert Inside(h, p, q) && IsBlock(h, p);
    if IsBlock(h, q) {
      assert Inside(h, q, q) by { if q in h.live { PartitionLive(h, q); } }
      Disjoint(h, p, q, q);
    }
  }

  lemma CarvedOk(h: Heap, p: nat, n: nat)
    requires Ok(h) && p in h.free && p != 0 && 1 <= n < h.size[p]
    ensures p + h.size[p] - n < |h.size| && Ok(Carved(h, p, n)) && Carved(h, p, n).own.Keys == h.own.Keys
    ensures p + h.size[p] - n !in h.live && p + h.size[p] - n !in h.free
  {
    CutIsNew(h, p, n);
    CarvedPartition(h, p, n);
    hide Partition;
    CarvedList(h, p, n);
    hide Circular;
    hide Sized;
    hide Coalesced;
  }

  lemma CarvedUnit(h: Heap, p: nat, n: nat, a: nat, u: nat)
    requires Circular(h) && Sized(h) && Partition(h) && p in h.free && p != 0 && 1 <= n < h.size[p]
    requires p + h.size[p] - n < |h.size| && p + h.size[p] - n !in h.live && p + h.size[p] - n !in h.free
    requires Inside(Carved(h, p, n), a, u) && IsBlock(Carved(h, p, n), a)
    ensures u in h.own && Carved(h, p, n).own[u] == a
  {
    var q := p + h.size[p] - n;
    hide Circular;
    if a == q {
      assert Inside(h, p, u) && IsBlock(h, p);
    } else {
      assert Inside(h, a, u) && IsBlock(h, a);
      assert q <= u < q + n ==> Inside(h, p, u) && IsBlock(h, p);
    }
  }

  lemma CarvedOwner(h: Heap, p: nat, n: nat, u: nat)
    requires Partition(h) && p in h.free && p != 0 && p < |h.size| && 1 <= n < h.size[p]
    requires p + h.size[p] - n < |h.size| && p + h.size[p] - n !in h.live && p + h.size[p] - n !in h.free
    requires u in h.own
    ensures var g := Carved(h, p, n); 0 < u < |g.size| && IsBlock(g, g.own[u]) && Inside(g, g.own[u], u)
  {
    assert IsBlock(h, h.own[u]) && Inside(h, h.own[u], u);
  }

  lemma CarvedPartition(h: Heap, p: nat, n: nat)
    requires Circular(h) && Sized(h) && Partition(h) && p in h.free && p != 0 && 1 <= n < h.size[p]
    requires p + h.size[p] - n < |h.size| && p + h.size[p] - n !in h.live && p + h.size[p] - n !in h.free
    ensures Partition(Carved(h, p, n))
  {
    var g := Carved(h, p, n);
    assert p < |h.ptr| && p + h.size[p] <= |h.size|;
    forall a: nat, u: nat | Inside(g, a, u) && IsBlock(g, a)
      ensures u in g.own && g.own[u] == a
    {
      CarvedUnit(h, p, n, a, u);
    }
    forall u | u in g.own
      ensures 0 < u < |g.size| && IsBlock(g, g.own[u]) && Inside(g, g.own[u], u)
    {
      CarvedOwner(h, p, n, u);
    }
    hide Circular;
    hide Sized;
  }

  // ---------- more memory ----------

  ghost function Units(a: nat, n: nat): (s: set<nat>)
    ensures forall u :: u in s <==> a <= u < a + n
  {
    if n == 0 then {} else Units(a, n - 1) + {a + n - 1}
  }

  /** Units asked of sbrk when `nu` are needed. */
  function Core(nu: nat): nat { if nu < 4096 then 4096 else nu }

  /** sbrk handed out `n` units at `hp`; they form one allocated block. */
  ghost function Extended(h: Heap, hp: nat, n: nat): Heap
    requires |h.ptr| == |h.size| <= hp && n > 0
  {
    var pad := hp + n - |h.size|;
    Heap(h.ptr + seq(pad, i => 0), (h.size + seq(pad, i => 0))[hp := n], h.free, h.live[hp := n],
         map u | u in h.own.Keys + Units(hp, n) :: if u in h.own then h.own[u] else hp)
  }

  lemma ExtendedAt(h: Heap, hp: nat, n: nat, a: nat)
    requires a < |h.ptr| == |h.size| <= hp && n > 0
    ensures var g := Extended(h, hp, n);
            |g.ptr| == |g.size| == hp + n && g.ptr[a] == h.ptr[a] && g.size[a] == h.size[a]
            && g.free == h.free
  {}

  lemma ExtendedList(h: Heap, hp: nat, n: nat)
    requires Circular(h) && Sized(h) && Coalesced(h) && |h.ptr| == |h.size| <= hp && n > 0
    ensures Circular(Extended(h, hp, n)) && Sized(Extended(h, hp, n)) && Coalesced(Extended(h, hp, n))
  {
    hide Extended;
    var g := Extended(h, hp, n);
    ExtendedAt(h, hp, n, 0);
    forall a | a in h.free ensures a < |g.ptr| && g.ptr[a] == h.ptr[a] && g.size[a] == h.size[a] && Gap(g, a) {
      ExtendedAt(h, hp, n, a);
      assert Gap(h, a);
    }
  }

  lemma ExtendedPartition(h: Heap, hp: nat, n: nat)
    requires Circular(h) && Partition(h) && |h.ptr| == |h.size| <= hp && n > 0
    ensures Partition(Extended(h, hp, n))
  {
    var g := Extended(h, hp, n);
    assert 0 < |h.ptr|;
    forall a: nat | IsBlock(h, a) ensures a < |h.size| { if a in h.live { PartitionLive(h, a); } }
    forall a: nat, u: nat | Inside(g, a, u) && IsBlock(g, a) ensures u in g.own && g.own[u] == a {
      if a != hp { assert Inside(h, a, u) && IsBlock(h, a); }
    }
    forall u | u in g.own ensures 0 < u < |g.size| && IsBlock(g, g.own[u]) && Inside(g, g.own[u], u) {
      if u in h.own { assert IsBlock(h, h.own[u]) && Inside(h, h.own[u], u); }
    }
    forall a | a in g.live
      ensures a !in g.free && 0 < a && 1 <= g.live[a] && a + g.live[a] <= |g.size| && g.size[a] == g.live[a]
    {
      if a != hp { PartitionLive(h, a); }
    }
  }

  lemma ExtendedMaps(h: Heap, hp: nat, n: nat)
    requires |h.ptr| == |h.size| <= hp && n > 0 && hp !in h.live
    ensures Extended(h, hp, n).live - {hp} == h.live && Extended(h, hp, n).own.Keys == h.own.Keys + Units(hp, n)
  {}

  lemma NewStart(h: Heap, hp: nat)
    requires Partition(h) && |h.size| <= hp
    ensures hp !in h.live
  {
    if hp in h.live { PartitionLive(h, hp); }
  }

  lemma ExtendedOk(h: Heap, hp: nat, n: nat)
    requires Ok(h) && |h.ptr| == |h.size| <= hp && n > 0
    ensures Ok(Extended(h, hp, n)) && hp !in h.live && Extended(h, hp, n).live - {hp} == h.live
    ensures Extended(h, hp, n).own.Keys == h.own.Keys + Units(hp, n)
  {
    hide Partition;
    hide Coalesced;
    hide Sized;
    hide Circular;
    hide Extended;
    NewStart(h, hp);
    ExtendedPartition(h, hp, n);
    ExtendedList(h, hp, n);
    ExtendedMaps(h, hp, n);
  }

  // ---------- the free list is a function of the allocated blocks ----------

  /** A unit of a free block of one heap is a unit of a free block of another with the same
      allocations and the same memory. */
  lemma FreeUnit(h: Heap, g: Heap, a: nat, u: nat) returns (b: nat)
    requires Partition(h) && Partition(g) && h.live == g.live && h.own.Keys == g.own.Keys
    requires a in h.free && a != 0 && Inside(h, a, u)
    ensures b in g.free && b != 0 && Inside(g, b, u)
  {
    assert IsBlock(h, a) && u in h.own.Keys;
    b := g.own[u];
    assert IsBlock(g, b) && Inside(g, b, u);
    if b in g.live {
      PartitionLive(g, b);
      PartitionLive(h, b);
      assert IsBlock(h, b) && Inside(h, b, u);
    }
  }

  /** In a coalesced list a unit right behind a free block is not free. */
  lemma Behind(h: Heap, a: nat, c: nat)
    requires Ok(h) && a in h.free && c in h.free && a != 0 && c != 0
    ensures !Inside(h, c, a + h.size[a])
  {
    assert IsBlock(h, a) && IsBlock(h, c);
    if c < a < c + h.size[c] {
      assert Inside(h, a, a) && Inside(h, c, a);
      Disjoint(h, a, c, a);
    }
    if a < c {
      Next(h, a, c);
      assert Gap(h, a);
    }
  }

  lemma SameStart(h: Heap, g: Heap, a: nat)
    requires Ok(h) && Ok(g) && h.live == g.live && h.own.Keys == g.own.Keys && a in h.free
    ensures a in g.free
  {
    if a != 0 {
      assert Inside(h, a, a);
      var b := FreeUnit(h, g, a, a);
      if b < a {
        assert Inside(g, b, a - 1);
        var c := FreeUnit(g, h, b, a - 1);
        assert IsBlock(h, c) && IsBlock(h, a);
        if a < c + h.size[c] { assert Inside(h, c, a); Disjoint(h, a, c, a); }
        Behind(h, c, a);
      }
    }
  }

  lemma SizeAtLeast(h: Heap, g: Heap, a: nat)
    requires Ok(h) && Ok(g) && h.live == g.live && h.own.Keys == g.own.Keys && a in h.free && a in g.free
    ensures h.size[a] >= g.size[a]
  {
    if a != 0 && h.size[a] < g.size[a] {
      var u := a + h.size[a];
      assert Inside(g, a, u);
      var d := FreeUnit(g, h, a, u);
      Behind(h, a, d);
    }
  }

  lemma SameFree(h: Heap, g: Heap)
    requires Ok(h) && Ok(g) && h.live == g.live && h.own.Keys == g.own.Keys
    ensures h.free == g.free
  {
    hide Ok;
    forall a ensures a in h.free <==> a in g.free {
      if a in h.free { SameStart(h, g, a); }
      if a in g.free { SameStart(g, h, a); }
    }
  }

  lemma SameNext(h: Heap, g: Heap, a: nat)
    requires Circular(h) && Circular(g) && h.free == g.free && a in h.free
    ensures h.ptr[a] == g.ptr[a]
  {
    if h.ptr[a] != 0 { Next(g, a, h.ptr[a]); }
    if g.ptr[a] != 0 { Next(h, a, g.ptr[a]); }
  }

  /** The same free blocks, with the same headers. */
  ghost predicate SameList(h: Heap, g: Heap) {
    && h.free == g.free
    && forall a :: a in h.free ==>
         a < |h.ptr| && a < |g.ptr| && a < |h.size| && a < |g.size| && h.ptr[a] == g.ptr[a] && h.size[a] == g.size[a]
  }

  /** The free list is determined by the memory obtained and the blocks allocated: the order of the
      frees that led to it leaves no trace, and freeing what malloc returned restores it. */
  lemma Canonical(h: Heap, g: Heap)
    requires Ok(h) && Ok(g) && h.live == g.live && h.own.Keys == g.own.Keys
    ensures SameList(h, g)
  {
    hide Partition;
    hide Coalesced;
    hide Sized;
    SameFree(h, g);
    forall a | a in h.free ensures a < |h.ptr| && a < |g.ptr| && h.ptr[a] == g.ptr[a] && h.size[a] == g.size[a] {
      SizeAtLeast(h, g, a);
      SizeAtLeast(g, h, a);
      SameNext(h, g, a);
    }
  }

  // ---------- the allocator ----------

  /** Header units for a request of `nbytes` bytes, in 32-bit arithmetic. */
  function NUnits(nbytes: nat): nat { (nbytes + HEADER - 1) % TWO32 / HEADER + 1 }

  /** The block handed out holds the bytes asked for exactly when rounding up does not wrap. */
  lemma Usable(nbytes: nat)
    requires nbytes < TWO32
    ensures (NUnits(nbytes) - 1) * HEADER >= nbytes <==> nbytes + HEADER <= TWO32
    ensures nbytes + HEADER > TWO32 ==> NUnits(nbytes) == 1
  {
    if nbytes + HEADER > TWO32 {
      assert (nbytes + 7) % TWO32 == nbytes + 7 - TWO32;
    } else {
      assert (nbytes + 7) % TWO32 == nbytes + 7;
    }
  }

  /** sbrk's argument: the bytes of `nu` units, cut to 32 bits and read as a signed number. */
  function SbrkArg(nu: nat): int {
    var x := nu * HEADER % TWO32;
    if x < 0x8000_0000 then x else x - TWO32
  }

  /** growproc: the new size of a process of `sz` bytes, or -1; `room` says whether the memory is
      there. */
  function Growproc(sz: nat, n: int, room: bool): int {
    var newsz := (sz + n) % TWO32;
    if n > 0 then if newsz >= KERNBASE || !room then -1 else if newsz < sz then sz else newsz
    else if n == 0 then sz
    else if newsz >= sz then if sz == 0 then -1 else sz
    else if newsz == 0 then -1 else newsz
  }

  /** The block that morecore puts on the free list starts at the old size. When sbrk succeeds, it
      lies inside the process exactly for requests of less than 2^28 units; for all larger ones the
      argument of sbrk is negative or zero, and no byte of the block is inside. It then succeeds
      unless it would shrink the process to nothing. */
  lemma MoreInside(nbytes: nat, sz: nat, room: bool)
    requires nbytes < TWO32 && sz < KERNBASE
    ensures NUnits(nbytes) < MAXUNITS <==> nbytes <= 0x7FFF_FFF0 || nbytes + HEADER > TWO32
    ensures SbrkArg(Core(NUnits(nbytes))) > 0 <==> NUnits(nbytes) < MAXUNITS
    ensures var nu := Core(NUnits(nbytes));
            var sz' := Growproc(sz, SbrkArg(nu), room);
            sz' != -1 ==> if NUnits(nbytes) < MAXUNITS then sz' == sz + nu * HEADER else sz' <= sz
    ensures var n := SbrkArg(Core(NUnits(nbytes)));
            0 < sz && NUnits(nbytes) >= MAXUNITS ==> (Growproc(sz, n, room) != -1 <==> sz + n != 0)
  {
    NUnitsBound(nbytes);
    var nu := Core(NUnits(nbytes));
    hide NUnits;
    if nu < MAXUNITS {
      assert nu * HEADER % TWO32 == nu * HEADER;
      assert sz + nu * HEADER < TWO32;
    } else {
      assert SbrkArg(nu) == nu * HEADER - TWO32;
    }
  }

  lemma NUnitsBound(nbytes: nat)
    requires nbytes < TWO32
    ensures NUnits(nbytes) <= 2 * MAXUNITS
    ensures NUnits(nbytes) < MAXUNITS <==> nbytes <= 0x7FFF_FFF0 || nbytes + HEADER > TWO32
  {
    if nbytes + HEADER > TWO32 {
      assert (nbytes + 7) % TWO32 == nbytes + 7 - TWO32;
    } else {
      assert (nbytes + 7) % TWO32 == nbytes + 7;
    }
  }

  /** A free block large enough for `n` units. */
  ghost predicate Fits(h: Heap, a: nat, n: nat) { a in h.free && a < |h.size| && h.size[a] >= n }

  /** Some free block is large enough for `n` units. */
  ghost predicate Roomy(h: Heap, n: nat) { exists a :: Fits(h, a, n) }

  lemma RoomyLess(h: Heap, m: nat, n: nat)
    requires Roomy(h, m) && n <= m
    ensures Roomy(h, n)
  {
    var a :| Fits(h, a, m);
    assert Fits(h, a, n);
  }

  /** Walking the list upward from `p`, block `a` comes no later than `last`. */
  predicate Ahead(p: nat, a: nat, last: nat) {
    if p <= last then p <= a <= last else p <= a || a <= last
  }

  /** How far the walk from `p` is from `last`. */
  function Walk(p: nat, last: nat, top: nat): int {
    if p <= last then last - p else top - p + last + 1
  }

  /** From the block after `last`, the whole list is ahead. */
  lemma AllAhead(h: Heap, last: nat, a: nat)
    requires Circular(h) && last in h.free && a in h.free
    ensures Ahead(h.ptr[last], a, last)
  {
    if last < a { Next(h, last, a); }
  }

  /** One step along the list passes only the block left. */
  lemma StepAhead(h: Heap, p: nat, last: nat, a: nat)
    requires Circular(h) && p in h.free && last in h.free && a in h.free && p != last && Ahead(p, a, last) && a != p
    ensures Ahead(h.ptr[p], a, last)
  {
    if p < last { Next(h, p, a); } else if p < a { Next(h, p, a); }
  }

  lemma StepWalk(h: Heap, p: nat, last: nat)
    requires Circular(h) && p in h.free && last in h.free && p != last
    ensures 0 <= Walk(h.ptr[p], last, |h.ptr|) < Walk(p, last, |h.ptr|)
  {
    if p < last { Next(h, p, last); }
  }

  /** Every block that fits is still ahead of the search. */
  ghost predicate Searching(h: Heap, p: nat, last: nat, n: nat) {
    p in h.free && forall a :: Fits(h, a, n) ==> Ahead(p, a, last)
  }

  lemma SearchAll(h: Heap, last: nat, n: nat)
    requires Ok(h) && last in h.free
    ensures Searching(h, h.ptr[last], last, n)
  {
    forall a | Fits(h, a, n) ensures Ahead(h.ptr[last], a, last) { AllAhead(h, last, a); }
  }

  lemma SearchStep(h: Heap, p: nat, last: nat, n: nat)
    requires Ok(h) && last in h.free && Searching(h, p, last, n) && p != last && !Fits(h, p, n)
    ensures Searching(h, h.ptr[p], last, n)
    ensures 0 <= Walk(h.ptr[p], last, |h.ptr|) < Walk(p, last, |h.ptr|)
  {
    forall a | Fits(h, a, n) ensures Ahead(h.ptr[p], a, last) { StepAhead(h, p, last, a); }
    StepWalk(h, p, last);
  }

  lemma InList(h: Heap, a: nat)
    requires Ok(h) && a in h.free
    ensures a < |h.ptr| == |h.size| && h.ptr[a] < |h.ptr| && h.ptr[a] in h.free
  {}

  /** Back where it started, the search has seen the whole list. */
  lemma SearchDone(h: Heap, last: nat, n: nat)
    requires Searching(h, last, last, n) && !Fits(h, last, n)
    ensures !Roomy(h, n)
  {}

  lemma FitsBlock(h: Heap, p: nat, n: nat)
    requires Ok(h) && Fits(h, p, n) && n > 0
    ensures p != 0
  {}

  /** The headers after free has dealt with the block above. */
  function UpSize(ptr: seq<nat>, size: seq<nat>, bp: nat, p: nat): seq<nat>
    requires bp < |ptr| == |size| && p < |ptr| && ptr[p] < |ptr|
  {
    if bp + size[bp] == ptr[p] then size[bp := size[bp] + size[ptr[p]]] else size
  }

  function UpPtr(ptr: seq<nat>, size: seq<nat>, bp: nat, p: nat): seq<nat>
    requires bp < |ptr| == |size| && p < |ptr| && ptr[p] < |ptr|
  {
    ptr[bp := if bp + size[bp] == ptr[p] then ptr[ptr[p]] else ptr[p]]
  }

  /** The headers after free has dealt with the block below too. */
  function DownSize(size: seq<nat>, bp: nat, p: nat): seq<nat>
    requires bp < |size| && p < |size|
  {
    if p + size[p] == bp then size[p := size[p] + size[bp]] else size
  }

  function DownPtr(ptr: seq<nat>, size: seq<nat>, bp: nat, p: nat): seq<nat>
    requires bp < |ptr| == |size| && p < |ptr|
  {
    ptr[p := if p + size[p] == bp then ptr[bp] else bp]
  }

  lemma UpFields(h: Heap, bp: nat, p: nat)
    requires bp < |h.ptr| == |h.size| && p < bp && h.ptr[p] < |h.ptr| && (h.ptr[p] == 0 || bp < h.ptr[p])
    ensures var g := Above(Inserted(h, bp, p), bp);
            g.size == UpSize(h.ptr, h.size, bp, p) && g.ptr == UpPtr(h.ptr, h.size, bp, p)[p := bp]
  {
    var h1 := Inserted(h, bp, p);
    assert h1.ptr[bp] == h.ptr[p];
    if h.ptr[p] != 0 && bp + h1.size[bp] == h1.ptr[bp] {
      assert h1.ptr[h.ptr[p]] == h.ptr[h.ptr[p]];
    }
  }

  lemma DownFields(h: Heap, bp: nat, p: nat, ptr: seq<nat>)
    requires p < bp < |h.ptr| == |h.size| == |ptr| && h.size[0] == 0 && h.ptr == ptr[p := bp]
    ensures Below(h, bp, p).size == DownSize(h.size, bp, p) && Below(h, bp, p).ptr == DownPtr(ptr, h.size, bp, p)
  {}

  ghost predicate Placed(h: Heap, bp: nat, p: nat) {
    bp < |h.ptr| == |h.size| && p < bp && h.ptr[p] < |h.ptr|
  }

  /** What free makes of the heap. */
  ghost function Freed(h: Heap, bp: nat, p: nat): Heap
    requires Placed(h, bp, p)
  {
    Below(Above(Inserted(h, bp, p), bp), bp, p)
  }

  /** free keeps the list circular, ordered and fully coalesced, loses no unit, and its pointer
      writes, in the order it makes them, give the headers of that heap. */
  lemma FreedOk(h: Heap, bp: nat, p: nat)
    requires Ok(h) && bp in h.live && Precedes(h, p, bp)
    ensures Placed(h, bp, p)
    ensures var f := Freed(h, bp, p);
            && Ok(f) && p in f.free && Roomy(f, h.live[bp]) && f.live == h.live - {bp} && f.own.Keys == h.own.Keys
            && f.size == DownSize(UpSize(h.ptr, h.size, bp, p), bp, p)
               && f.ptr == DownPtr(UpPtr(h.ptr, h.size, bp, p), UpSize(h.ptr, h.size, bp, p), bp, p)
  {
    PartitionLive(h, bp);
    assert h.ptr[p] < |h.ptr| && h.size[0] == 0;
    AboveOk(h, bp, p);
    UpFields(h, bp, p);
    hide Ok;
    hide Pending;
    hide Loose;
    var g := Above(Inserted(h, bp, p), bp);
    hide Above;
    BelowOk(g, bp, p);
    var a := BelowBlock(g, bp, p, h.live[bp]);
    DownFields(g, bp, p, UpPtr(h.ptr, h.size, bp, p));
    hide Below;
    assert Fits(Freed(h, bp, p), a, h.live[bp]);
  }

  /** Freeing what malloc handed out restores the list it was taken from, header by header. */
  lemma FreeUndoesMalloc(h: Heap, g: Heap, q: nat, n: nat, p: nat)
    requires Ok(h) && Ok(g) && q !in h.live && g.live == h.live[q := n] && g.own.Keys == h.own.Keys && Precedes(g, p, q)
    ensures Placed(g, q, p) && Freed(g, q, p).live == h.live && SameList(h, Freed(g, q, p))
  {
    hide Ok;
    hide SameList;
    hide Freed;
    FreedOk(g, q, p);
    assert h.live[q := n] - {q} == h.live;
    Canonical(h, Freed(g, q, p));
  }

  class UserHeap {
    var ptr: seq<nat>
    var size: seq<nat>
    var freep: int // -1 until the first malloc
    ghost var free: set<nat>
    ghost var live: map<nat, nat>
    ghost var own: map<nat, nat>

    ghost function H(): Heap reads this { Heap(ptr, size, free, live, own) }

    ghost predicate Valid() reads this {
      && |ptr| == |size| > 0
      && (if freep < 0 then freep == -1 && live == map[] && own == map[] && free == {} else Ok(H()) && freep in free)
    }

    constructor ()
      ensures Valid() && freep == -1
    {
      ptr, size, freep := [0], [0], -1;
      free, live, own := {}, map[], map[];
    }

    /** free's search for the block to insert after. */
    method FindPlace(bp: nat) returns (p: nat)
      requires freep >= 0 && freep in free && Circular(H()) && bp !in free && 0 < bp < |ptr|
      ensures Precedes(H(), p, bp)
    {
      p := freep;
      while !(bp > p && bp < ptr[p])
        invariant p in free
        decreases if p < bp then bp - p else bp + |ptr| - p + 1
      {
        if p >= ptr[p] && (bp > p || bp < ptr[p]) { break; }
        p := ptr[p];
      }
    }

    /** free's writes once the place is found: merge upward or link, then merge downward or link. */
    method Relink(bp: nat, p: nat)
      requires Placed(H(), bp, p)
      modifies this`ptr, this`size
      ensures size == DownSize(UpSize(old(ptr), old(size), bp, p), bp, p)
      ensures ptr == DownPtr(UpPtr(old(ptr), old(size), bp, p), UpSize(old(ptr), old(size), bp, p), bp, p)
    {
      if bp + size[bp] == ptr[p] {
        size := size[bp := size[bp] + size[ptr[p]]];
        ptr := ptr[bp := ptr[ptr[p]]];
      } else {
        ptr := ptr[bp := ptr[p]];
      }
      assert size == UpSize(old(ptr), old(size), bp, p) && ptr == UpPtr(old(ptr), old(size), bp, p);
      if p + size[p] == bp {
        size := size[p := size[p] + size[bp]];
        ptr := ptr[p := ptr[bp]];
      } else {
        ptr := ptr[p := bp];
      }
    }

    /** Give a block back. */
    method Free(ap: nat)
      requires Valid() && ap > 0 && ap - 1 in live
      modifies this
      ensures Valid() && freep >= 0 && |ptr| == old(|ptr|)
      ensures live == old(live) - {ap - 1} && own.Keys == old(own.Keys)
      ensures Roomy(H(), old(live[ap - 1]))
    {
      var bp := ap - 1;
      ghost var h := H();
      PartitionLive(h, bp);
      var p := FindPlace(bp);
      FreedOk(h, bp, p);
      hide *;
      ghost var f := Freed(h, bp, p);
      Relink(bp, p);
      freep := p;
      free, live, own := f.free, f.live, f.own;
    }

    /** The break moves up by `n` units from `hp`, which become one block. */
    method Grow(hp: nat, n: nat)
      requires Valid() && freep >= 0 && hp >= |ptr| && n > 0
      modifies this`ptr, this`size, this`live, this`own
      ensures Valid() && hp in live && live[hp] == n && live - {hp} == old(live)
      ensures own.Keys == old(own.Keys) + Units(hp, n)
    {
      hide Ok;
      ghost var g := Extended(H(), hp, n);
      ExtendedOk(H(), hp, n);
      var pad := hp + n - |size|;
      ptr := ptr + seq(pad, i => 0);
      size := (size + seq(pad, i => 0))[hp := n];
      live, own := g.live, g.own;
      assert H() == g;
    }

    /** Ask the system for at least `nu` units; `sbrk` is the address it answers with, -1 for no. */
    method Morecore(nu: nat, sbrk: int) returns (p: int)
      requires Valid() && freep >= 0 && (sbrk == -1 || sbrk >= |ptr|)
      modifies this
      ensures Valid() && freep >= 0 && live == old(live)
      ensures p == if sbrk == -1 then -1 else freep
      ensures sbrk == -1 ==> H() == old(H()) && freep == old(freep)
      ensures sbrk != -1 ==> Roomy(H(), nu) && own.Keys == old(own.Keys) + Units(sbrk, Core(nu))
    {
      hide Ok;
      hide Roomy;
      var n := if nu < 4096 then 4096 else nu;
      if sbrk == -1 { return -1; }
      Grow(sbrk, n);
      Free(sbrk + 1);
      RoomyLess(H(), n, nu);
      p := freep;
    }

    /** Hand out all of free block `p`. */
    method TakeAll(prevp: nat, p: nat)
      requires Valid() && freep == prevp < |ptr| && p == ptr[prevp] != 0
      modifies this`ptr, this`free, this`live
      ensures Valid() && p < |size| && p !in old(live) && live == old(live)[p := size[p]]
    {
      hide Ok;
      UnlinkedOk(H(), prevp, p);
      ghost var g := Unlinked(H(), prevp, p);
      ptr := ptr[prevp := ptr[p]];
      free, live := g.free, g.live;
      assert H() == g;
    }

    /** Hand out the last `n` units of free block `p`. */
    method TakeTail(p: nat, n: nat) returns (q: nat)
      requires Valid() && freep >= 0 && p in free && p != 0 && p < |size| && 1 <= n < size[p]
      modifies this`size, this`live, this`own
      ensures Valid() && q !in old(live) && live == old(live)[q := n] && own.Keys == old(own.Keys)
    {
      hide Ok;
      CarvedOk(H(), p, n);
      ghost var g := Carved(H(), p, n);
      size := size[p := size[p] - n];
      q := p + size[p];
      size := size[q := n];
      live, own := g.live, g.own;
      assert H() == g;
    }

    /** Hand out `n` units of free block `p`: all of it, or its tail end. */
    method Take(prevp: nat, p: nat, n: nat) returns (r: nat)
      requires Valid() && freep >= 0 && prevp in free && p == ptr[prevp] && Fits(H(), p, n) && n > 0
      modifies this
      ensures Valid() && freep == prevp
      ensures r > 0 && r - 1 !in old(live) && live == old(live)[r - 1 := n] && own.Keys == old(own.Keys)
    {
      FitsBlock(H(), p, n);
      hide Ok;
      freep := prevp;
      var q := p;
      if size[p] == n {
        TakeAll(prevp, p);
      } else {
        q := TakeTail(p, n);
      }
      r := q + 1;
    }

    /** The first call sets up a list holding base alone. */
    method Start()
      requires Valid()
      modifies this
      ensures Valid() && freep >= 0 && live == old(live) && own == old(own) && |ptr| == old(|ptr|)
      ensures forall n: nat :: n > 0 ==> (Roomy(H(), n) <==> Roomy(old(H()), n))
    {
      if freep == -1 {
        ptr, size := ptr[0 := 0], size[0 := 0];
        free := {0};
        freep := 0;
      }
    }

    /** Allocate `nbytes` bytes; `sbrk` is what the system would answer if asked for more memory. */
    method Malloc(nbytes: nat, sbrk: int) returns (r: int)
      requires Valid() && (sbrk == -1 || sbrk >= |ptr|)
      requires nbytes < TWO32 && NUnits(nbytes) < MAXUNITS
      modifies this
      ensures Valid()
      ensures r == -1 ==> sbrk == -1 && live == old(live) && own.Keys == old(own.Keys) && !Roomy(H(), NUnits(nbytes))
      ensures r != -1 ==> r > 0 && r - 1 !in old(live) && live == old(live)[r - 1 := NUnits(nbytes)]
      ensures r != -1 ==>
        || own.Keys == old(own.Keys)
        || (sbrk != -1 && !Roomy(old(H()), NUnits(nbytes))
            && own.Keys == old(own.Keys) + Units(sbrk, Core(NUnits(nbytes))))
    {
      hide Ok;
      hide Roomy;
      hide Units;
      var n := NUnits(nbytes);
      Start();
      InList(H(), freep);
      var prevp := freep;
      var p := ptr[prevp];
      ghost var grown := false;
      SearchAll(H(), freep, n);
      while true
        invariant Valid() && freep >= 0 && prevp in free && prevp < |ptr| && p == ptr[prevp] && p < |ptr|
                  && Searching(H(), p, freep, n)
        invariant live == old(live)
        invariant if grown then sbrk != -1 && Roomy(H(), n) && !Roomy(old(H()), n)
                  && own.Keys == old(own.Keys) + Units(sbrk, Core(n))
                  else own.Keys == old(own.Keys) && |ptr| == old(|ptr|) && (Roomy(H(), n) <==> Roomy(old(H()), n))
        decreases !grown, Walk(p, freep, |ptr|)
      {
        if size[p] >= n {
          r := Take(prevp, p, n);
          return;
        }
        if p == freep {
          SearchDone(H(), p, n);
          p := Morecore(n, sbrk);
          if p == -1 { return -1; }
          grown := true;
          InList(H(), freep);
          prevp, p := p, ptr[p];
          SearchAll(H(), freep, n);
        } else {
          SearchStep(H(), p, freep, n);
          InList(H(), p);
          prevp, p := p, ptr[p];
        }
      }
    }
  }
}
