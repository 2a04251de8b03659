/** vm.c and kalloc.c as methods of the machine's memory: kalloc and kfree, deallocuvm, freevm,
    setupkvm, copyuvm, allocuvm and the page counts. */
module Vm {

  import opened PageTable
  import opened Params

  /** How an attempt to grow a space ends. */
  datatype Growth = Grown | NoMemory | Remap

  /** Frames run out, or a present page is reached first, or neither. */
  ghost function Outcome(frames: seq<Frame>, free: nat, d: nat, lo: nat, hi: nat): Growth {
    if free < FramesFor(frames, d, lo, Reach(frames, d, lo, hi)) then NoMemory
    else if FirstPresent(frames, d, lo, hi) < hi then Remap
    else Grown
  }

  /** Over a range without present pages allocuvm never panics, and its failure leaves the space every
      page it had. */
  lemma OutcomeClear(frames: seq<Frame>, free: nat, d: nat, own: map<nat, Use>, lo: nat, hi: nat)
    requires Space(frames, d, own) && lo <= hi && forall u: nat :: lo <= u < hi ==> !PteAt(frames, d, u).present
    ensures Outcome(frames, free, d, lo, hi) == if free < FramesFor(frames, d, lo, hi) then NoMemory else Grown
    ensures TrimTo(own, lo, hi) == own
  {
    hide PteAt;
    NoRemap(frames, d, lo, hi, hi);
    TrimNothing(frames, d, own, lo, hi);
  }

  class Memory {
    var frames: seq<Frame>
    var freelist: int
    ghost var order: seq<nat>

    ghost predicate Valid() reads this { FreeOk(frames, freelist, order) }

    /** `n` frames of any contents, and an empty list. */
    constructor (contents: seq<Frame>)
      ensures Valid() && frames == contents && order == []
    {
      frames := contents;
      freelist := NONE;
      order := [];
    }

    /** freerange: every whole frame between two addresses joins the list, the last one in front. */
    method Freerange(vstart: nat, vend: nat)
      requires Valid() && vend <= |frames| * PGSIZE
      requires forall f :: f in order ==> f < Pages(vstart) || vend / PGSIZE <= f
      modifies this
      ensures Valid() && |frames| == old(|frames|) && order == Down(Pages(vstart), vend / PGSIZE) + old(order)
      ensures forall g :: 0 <= g < |frames| && !(Pages(vstart) <= g < vend / PGSIZE) ==> frames[g] == old(frames[g])
    {
      hide FreeOk;
      var p := Pages(vstart);
      assert Down(p, p) + order == order;
      while (p + 1) * PGSIZE <= vend
        invariant Pages(vstart) <= p && (p <= vend / PGSIZE || p == Pages(vstart))
        invariant Valid() && |frames| == old(|frames|) && order == Down(Pages(vstart), p) + old(order)
        invariant forall g :: 0 <= g < |frames| && !(Pages(vstart) <= g < p) ==> frames[g] == old(frames[g])
        decreases vend - p * PGSIZE
      {
        assert p < vend / PGSIZE;
        DownNext(Pages(vstart), p, old(order));
        Kfree(p);
        p := p + 1;
      }
      assert p == vend / PGSIZE || (p == Pages(vstart) && vend / PGSIZE <= p);
    }

    /** Take the first free frame; -1 if there is none. */
    method Kalloc() returns (f: int)
      requires Valid()
      modifies this`freelist, this`order
      ensures Valid()
      ensures old(order) == [] ==> f == NONE && order == old(order)
      ensures old(order) != [] ==> f == old(order[0]) && 0 <= f < |frames| && order == old(order)[1..] && f !in order
    {
      f := freelist;
      if f != NONE {
        Pop(frames, freelist, order);
        freelist := frames[f].next;
        order := order[1..];
      }
    }

    /** Put a frame at the front of the list. */
    method Kfree(f: nat)
      requires Valid() && f < |frames| && f !in order
      modifies this
      ensures Valid() && order == [f] + old(order) && frames == old(frames)[f := Run(old(freelist))]
    {
      Push(frames, freelist, order, f);
      frames := frames[f := Run(freelist)];
      freelist := f;
      order := [f] + order;
    }

    /** Free the page of entry `j` of user table `i`, and clear the entry. */
    method FreeLeaf(d: nat, i: nat, j: nat, ghost left: map<nat, Use>) returns (ghost f: nat)
      requires Valid() && Space(frames, d, left) && Apart(left, order) && i < NUSER && j < NENTRIES
               && frames[d].e[i].present
      requires IsTable(frames, TableFrame(frames, d, i)) && frames[TableFrame(frames, d, i)].e[j].present
      modifies this
      ensures f in left && left[f] == Leaf(i, j) && order == [f] + old(order) && |frames| == old(|frames|)
      ensures Valid() && Space(frames, d, left - {f}) && Apart(left - {f}, order) && frames[d] == old(frames[d])
      ensures forall g :: 0 <= g < |frames| && g !in left ==> frames[g] == old(frames[g])
      ensures PagesKept(old(frames), frames, left - {f})
      ensures forall v: nat :: PteAt(frames, d, v) == if v == Index(i, j) then ZERO else old(PteAt(frames, d, v))
    {
      LeafFacts(frames, d, left, i, j);
      LeafFreedSpace(frames, d, left, i, j, freelist);
      forall v: nat
        ensures PteAt(LeafFreed(frames, TableFrame(frames, d, i), j, freelist), d, v) == if v == Index(i, j) then ZERO
                else PteAt(frames, d, v)
      {
        LeafFreedPte(frames, d, left, i, j, freelist, v);
      }
      hide PteAt;
      var t := frames[d].e[i].frame;
      var p := frames[t].e[j].frame;
      hide Space;
      f := p;
      Kfree(p);
      Written(frames, freelist, order, t, Table(frames[t].e[j := ZERO]));
      frames := frames[t := Table(frames[t].e[j := ZERO])];
      assert frames == LeafFreed(old(frames), t, j, old(freelist));
    }

    /** deallocuvm has dealt with the pages in [lo, v). */
    ghost predicate Trimming(was: seq<Frame>, worder: seq<nat>, own: map<nat, Use>, left: map<nat, Use>, d: nat,
                             lo: nat, v: nat)
      reads this
    {
      && Valid() && Space(frames, d, left) && Apart(left, order) && Trimmed(own, left, lo, v)
         && Returned(worder, order, own, left)
      && |frames| == |was| && d < |was| && frames[d] == was[d]
         && (forall g :: 0 <= g < |frames| && g !in own ==> frames[g] == was[g])
      && PagesKept(was, frames, left) && Cleared(was, frames, d, lo, v)
    }

    /** The page `v` is present: it goes. */
    method FreeRound(d: nat, lo: nat, v: nat, ghost was: seq<Frame>, ghost worder: seq<nat>, ghost own: map<nat, Use>,
                     ghost left: map<nat, Use>)
      returns (ghost left': map<nat, Use>)
      requires Trimming(was, worder, own, left, d, lo, v) && lo <= v < NUSER * NENTRIES && PteAt(frames, d, v).present
      modifies this
      ensures Trimming(was, worder, own, left', d, lo, v + 1)
    {
      hide Space;
      hide Cleared;
      hide PagesKept;
      hide Returned;
      hide FreeOk;
      var i, j := v / NENTRIES, v % NENTRIES;
      IndexSplit(v);
      PresentLeaf(frames, d, left, v);
      ghost var f := frames[frames[d].e[i].frame].e[j].frame;
      TrimDrop(frames, d, own, left, lo, v, f);
      assert left.Keys <= own.Keys;
      hide Trimmed;
      ReturnedMore(worder, order, own, left, f);
      ghost var before := frames;
      hide PteAt;
      f := FreeLeaf(d, i, j, left);
      ClearedNext(was, before, frames, d, lo, v);
      left' := left - {f};
      PagesKeptTrans(was, before, frames, left, left');
    }

    /** Without a table there is nothing to free up to the next one. */
    lemma SkipRound(d: nat, lo: nat, v: nat, hi: nat,
                    was: seq<Frame>, worder: seq<nat>, own: map<nat, Use>, left: map<nat, Use>)
      requires Trimming(was, worder, own, left, d, lo, v) && lo <= v < hi <= NUSER * NENTRIES
      requires IsTable(frames, d) && !frames[d].e[v / NENTRIES].present
      ensures var next := (v / NENTRIES + 1) * NENTRIES;
              next > v && Trimming(was, worder, own, left, d, lo, if next < hi then next else hi)
    {
      hide Space;
      hide PagesKept;
      hide Returned;
      hide FreeOk;
      IndexSplit(v);
      var next := (v / NENTRIES + 1) * NENTRIES;
      TrimSkip(frames, d, own, left, lo, v);
      TrimLess(own, left, lo, next, hi);
      NoTable(frames, d, v / NENTRIES);
      hide Trimmed;
      ClearedSkip(was, frames, d, lo, v, if next < hi then next else hi);
    }

    lemma RoundSpace(d: nat, lo: nat, v: nat,
                     was: seq<Frame>, worder: seq<nat>, own: map<nat, Use>, left: map<nat, Use>)
      requires Trimming(was, worder, own, left, d, lo, v) && v < NUSER * NENTRIES
      ensures IsTable(frames, d) && v / NENTRIES < NUSER
      ensures frames[d].e[v / NENTRIES].present ==>
                && IsTable(frames, frames[d].e[v / NENTRIES].frame)
                && PteAt(frames, d, v) == frames[frames[d].e[v / NENTRIES].frame].e[v % NENTRIES]
    {
      hide Cleared;
      hide PagesKept;
      hide Returned;
      hide Trimmed;
      hide FreeOk;
      IndexSplit(v);
      SpaceDir(frames, d, left);
      if frames[d].e[v / NENTRIES].present { LeafFacts(frames, d, left, v / NENTRIES, v % NENTRIES); }
    }

    /** An absent page stays as it is. */
    lemma KeepRound(d: nat, lo: nat, v: nat,
                    was: seq<Frame>, worder: seq<nat>, own: map<nat, Use>, left: map<nat, Use>)
      requires Trimming(was, worder, own, left, d, lo, v) && lo <= v < NUSER * NENTRIES
      requires IsTable(frames, d) && v / NENTRIES < NUSER && frames[d].e[v / NENTRIES].present
      requires !PteAt(frames, d, v).present
      ensures Trimming(was, worder, own, left, d, lo, v + 1)
    {
      hide Space;
      hide PagesKept;
      hide Returned;
      hide FreeOk;
      RoundSpace(d, lo, v, was, worder, own, left);
      TrimKeep(frames, d, own, left, lo, v);
      hide Trimmed;
      ClearedSkip(was, frames, d, lo, v, v + 1);
    }

    /** One round of deallocuvm's loop; the next page to look at. */
    method DeallocRound(d: nat, lo: nat, v: nat, hi: nat,
                        ghost was: seq<Frame>, ghost worder: seq<nat>, ghost own: map<nat, Use>,
                          ghost left: map<nat, Use>)
      returns (next: nat, ghost left': map<nat, Use>)
      requires Trimming(was, worder, own, left, d, lo, v) && lo <= v < hi <= NUSER * NENTRIES
      modifies this
      ensures next > v && Trimming(was, worder, own, left', d, lo, if next < hi then next else hi)
    {
      hide Trimming;
      hide PteAt;
      RoundSpace(d, lo, v, was, worder, own, left);
      var i, j := v / NENTRIES, v % NENTRIES;
      left' := left;
      if !frames[d].e[i].present {
        next := (i + 1) * NENTRIES;
        SkipRound(d, lo, v, hi, was, worder, own, left);
        return;
      }
      next := v + 1;
      if frames[frames[d].e[i].frame].e[j].present {
        left' := FreeRound(d, lo, v, was, worder, own, left);
      } else {
        KeepRound(d, lo, v, was, worder, own, left);
      }
    }

    /** deallocuvm on page numbers: free the user pages in [lo, hi). */
    method Deallocuvm(d: nat, lo: nat, hi: nat, ghost own: map<nat, Use>) returns (ghost left: map<nat, Use>)
      requires Valid() && Space(frames, d, own) && Apart(own, order) && lo <= hi <= NUSER * NENTRIES
      modifies this
      ensures Valid() && Space(frames, d, left) && Apart(left, order) && Trimmed(own, left, lo, hi)
              && Returned(old(order), order, own, left)
      ensures |frames| == old(|frames|) && frames[d] == old(frames[d])
      ensures forall g :: 0 <= g < |frames| && g !in own ==> frames[g] == old(frames[g])
      ensures PagesKept(old(frames), frames, left) && Cleared(old(frames), frames, d, lo, hi)
    {
      left := own;
      SpaceDir(frames, d, own);
      var v := lo;
      assert Trimming(frames, order, own, left, d, lo, v);
      while v < hi
        invariant lo <= v && Trimming(old(frames), old(order), own, left, d, lo, if v < hi then v else hi)
        decreases hi - v
      {
        hide Trimming;
        v, left := DeallocRound(d, lo, v, hi, old(frames), old(order), own, left);
      }
    }

    /** freevm's loop over the directory, once no user page is left. */
    method FreeTables(d: nat, ghost tabs: map<nat, Use>)
      requires Valid() && Space(frames, d, tabs) && Apart(tabs, order)
      requires forall f :: f in tabs ==>
                 !tabs[f].Leaf? && (tabs[f].Tab? ==> tabs[f].i < NENTRIES) && (tabs[f].Dir? ==> f == d)
      modifies this
      ensures Valid() && SetOf(order) == SetOf(old(order)) + (tabs.Keys - {d}) && d !in order
              && |frames| == old(|frames|)
      ensures forall g :: 0 <= g < |frames| && g !in tabs ==> frames[g] == old(frames[g])
    {
      ghost var left := tabs;
      ghost var space := frames;
      hide Space;
      var i := 0;
      SpaceDir(frames, d, tabs);
      while i < NENTRIES
        invariant i <= NENTRIES && Valid() && |frames| == |space| && d < |frames| && frames[d] == space[d]
                  && Apart(left, order) && d in left
        invariant forall f :: f in left <==> f in tabs && (tabs[f].Tab? ==> tabs[f].i >= i)
        invariant Returned(old(order), order, tabs, left)
        invariant forall g :: 0 <= g < |frames| && g !in tabs ==> frames[g] == old(frames[g])
      {
        TabFacts(space, d, tabs, i);
        if frames[d].e[i].present {
          var t := frames[d].e[i].frame;
          ReturnedMore(old(order), order, tabs, left, t);
          Kfree(t);
          left := left - {t};
        }
        i := i + 1;
      }
      assert left.Keys == {d};
    }

    /** freevm: free all user pages, then the tables, then the directory. Every frame the space owned is
        on the free list now, once. */
    method Freevm(d: nat, ghost own: map<nat, Use>)
      requires Valid() && Space(frames, d, own) && Apart(own, order)
      modifies this
      ensures Valid() && SetOf(order) == SetOf(old(order)) + own.Keys && |frames| == old(|frames|)
      ensures forall g :: 0 <= g < |frames| && g !in own ==> frames[g] == old(frames[g])
    {
      ghost var tabs := Deallocuvm(d, 0, NUSER * NENTRIES, own);
      NoLeaves(frames, d, own, tabs);
      SpaceDir(frames, d, tabs);
      FreeTables(d, tabs);
      Kfree(d);
      ReturnedAll(old(order), own, tabs, d);
    }

    /** copyuvm's inner loop: a copy of user table `t` with fresh pages; -1 if memory runs out. */
    method CopyTable(t: nat, i: nat) returns (nt: int, ghost leaves: map<nat, Use>)
      requires Valid() && Copyable(frames, SetOf(order), t)
      modifies this
      ensures Valid() && |frames| == old(|frames|) && SetOf(order) <= SetOf(old(order))
      ensures forall g :: 0 <= g < |frames| && g !in old(order) ==> frames[g] == old(frames[g])
      ensures nt != NONE ==> nt >= 0 && Copying(frames, order, SetOf(old(order)), t, nt, i, NENTRIES, leaves)
      ensures if nt != NONE then old(|order|) == |order| + TabFrames(old(frames[t].e))
              else old(|order|) < TabFrames(old(frames[t].e))
    {
      hide FreeOk;
      ghost var e := frames[t].e;
      ghost var free := SetOf(order);
      leaves := map[];
      nt := Kalloc();
      if nt == NONE { return; }
      assert old(order) == [old(order)[0]] + order;
      Written(frames, freelist, order, nt, Table(frames[t].e));
      CopyStart(frames, order, free, t, nt, i);
      frames := frames[nt := Table(frames[t].e)];
      hide Copyable;
      hide Leaves;
      hide CopiedLeaf;
      var j := 0;
      while j < NENTRIES
        invariant j <= NENTRIES && Valid() && |frames| == old(|frames|) && nt >= 0
                  && Copying(frames, order, free, t, nt, i, j, leaves)
        invariant SetOf(order) <= free && frames[t].e == e && old(|order|) == |order| + 1 + TabPages(e, j, false)
        invariant forall g :: 0 <= g < |frames| && g !in old(order) ==> frames[g] == old(frames[g])
      {
        var ok;
        ok, leaves := CopyEntry(t, nt, i, j, free, leaves);
        MorePages(e, j + 1, NENTRIES);
        if !ok { return NONE, leaves; }
        j := j + 1;
      }
    }

    method CopyEntry(t: nat, nt: nat, i: nat, j: nat, ghost free: set<nat>, ghost leaves: map<nat, Use>)
      returns (ok: bool, ghost leaves': map<nat, Use>)
      requires Valid() && j < NENTRIES && Copying(frames, order, free, t, nt, i, j, leaves)
      modifies this
      ensures Valid() && |frames| == old(|frames|) && SetOf(order) <= SetOf(old(order))
      ensures forall g :: 0 <= g < |frames| && g !in free ==> frames[g] == old(frames[g])
      ensures ok ==> Copying(frames, order, free, t, nt, i, j + 1, leaves')
      ensures if ok then old(|order|) == |order| + (if old(frames[t].e[j].present) then 1 else 0)
              else old(order) == [] && old(frames[t].e[j].present)
    {
      var p := frames[t].e[j];
      leaves' := leaves;
      if !p.present && !p.lazy {
        CopyNone(frames, order, free, t, nt, i, j, leaves, p);
        assert frames[nt].e[j] == p && frames[nt].e[j := p] == frames[nt].e;
        assert WithPte(frames, nt, j, p) == frames;
        return true, leaves;
      }
      if p.lazy {
        CopyNone(frames, order, free, t, nt, i, j, leaves, p.(frame := 0));
        Written(frames, freelist, order, nt, Table(frames[nt].e[j := p.(frame := 0)]));
        frames := WithPte(frames, nt, j, p.(frame := 0));
        return true, leaves;
      }
      ok, leaves' := CopyPresent(t, nt, i, j, free, leaves);
    }

    /** A fresh page with the contents of the old one. */
    method CopyPresent(t: nat, nt: nat, i: nat, j: nat, ghost free: set<nat>, ghost leaves: map<nat, Use>)
      returns (ok: bool, ghost leaves': map<nat, Use>)
      requires Valid() && j < NENTRIES && Copying(frames, order, free, t, nt, i, j, leaves)
      requires frames[t].e[j].present && !frames[t].e[j].lazy
      modifies this
      ensures Valid() && |frames| == old(|frames|) && SetOf(order) <= SetOf(old(order))
      ensures forall g :: 0 <= g < |frames| && g !in free ==> frames[g] == old(frames[g])
      ensures ok ==> Copying(frames, order, free, t, nt, i, j + 1, leaves') && old(|order|) == |order| + 1
      ensures !ok ==> old(order) == []
    {
      var p := frames[t].e[j];
      leaves' := leaves;
      ghost var was := order;
      var m := Kalloc();
      if m == NONE { return false, leaves; }
      CopyPage(frames, was, free, t, nt, i, j, leaves, m);
      Written(frames, freelist, order, m, frames[p.frame]);
      frames := frames[m := frames[p.frame]];
      Written(frames, freelist, order, nt, Table(frames[nt].e[j := p.(frame := m)]));
      frames := WithPte(frames, nt, j, p.(frame := m));
      leaves' := leaves[m := Leaf(i, j)];
      ok := true;
    }

    /** A fresh frame for a table, entered in the directory of a space under construction. */
    method AddTable(d: nat, i: nat, t: nat, ghost own: map<nat, Use>, ghost leaves: map<nat, Use>)
      returns (ghost own': map<nat, Use>)
      requires Valid() && Space(frames, d, own) && Apart(own, order) && i < NENTRIES && !frames[d].e[i].present
               && t !in own && t !in order
      requires leaves.Keys !! own.Keys && Apart(leaves, order)
      requires IsTable(frames, t) && t !in leaves
               && (if i < NUSER then Leaves(frames, t, i, NENTRIES, leaves) else leaves == map[])
      modifies this`frames
      ensures Valid() && own' == Joined(own, i, t, leaves) && Space(frames, d, own') && Apart(own', order)
      ensures frames == old(WithPte(frames, d, i, Pte(t, true, false, USER_BITS)))
    {
      JoinedSpace(frames, d, own, i, t, leaves, Pte(t, true, false, USER_BITS));
      SpaceDir(frames, d, own);
      Written(frames, freelist, order, d, Table(frames[d].e[i := Pte(t, true, false, USER_BITS)]));
      own' := Joined(own, i, t, leaves);
      frames := WithPte(frames, d, i, Pte(t, true, false, USER_BITS));
    }

    /** An empty directory; -1 if memory runs out. */
    method NewDir() returns (d: int, ghost own: map<nat, Use>)
      requires Valid()
      modifies this
      ensures Valid() && |frames| == old(|frames|)
      ensures forall g :: 0 <= g < |frames| && g !in old(order) ==> frames[g] == old(frames[g])
      ensures d == NONE ==> order == old(order) == []
      ensures d != NONE ==>
                d >= 0 && Fresh(frames, d, own, SetOf(old(order)), order) && frames[d] == Table(Blank())
                && old(|order|) == |order| + 1
    {
      own := map[];
      d := Kalloc();
      if d == NONE { return; }
      assert old(order) == [d] + order;
      Written(frames, freelist, order, d, Table(Blank()));
      frames := frames[d := Table(Blank())];
      own := map[d := Dir];
      BlankSpace(frames, d);
    }

    /** A table for one of the kernel's directory entries. */
    method KernelTable(d: nat, i: nat, ghost own: map<nat, Use>, ghost free: set<nat>)
      returns (ok: bool, ghost own': map<nat, Use>)
      requires Valid() && Fresh(frames, d, own, free, order) && NUSER <= i < NENTRIES && !frames[d].e[i].present
      modifies this
      ensures Valid() && |frames| == old(|frames|) && d < |frames|
      ensures forall g :: 0 <= g < |frames| && g !in free ==> frames[g] == old(frames[g])
      ensures Fresh(frames, d, own', free, order)
      ensures IsTable(frames, d)
      ensures ok ==> forall k :: 0 <= k < NENTRIES ==> frames[d].e[k].present == (old(frames[d].e[k].present) || k == i)
      ensures if ok then old(|order|) == |order| + 1 else old(order) == []
    {
      own' := own;
      ghost var was := order;
      var t := Kalloc();
      if t == NONE { return false, own; }
      assert was == [t] + order;
      FreshTable(frames, d, own, free, was, t);
      SpaceDir(frames, d, own);
      Written(frames, freelist, order, t, Table(Blank()));
      SpaceKept(frames, frames[t := Table(Blank())], d, own);
      hide Space;
      frames := frames[t := Table(Blank())];
      own' := AddTable(d, i, t, own, map[]);
      assert Joined(own, i, t, map[]).Keys == own.Keys + {t};
      ok := true;
    }

    /** setupkvm's mappings: a table for each of the kernel's directory entries. */
    method KernelTables(d: nat, ghost own: map<nat, Use>, ghost free: set<nat>)
      returns (ok: bool, ghost own': map<nat, Use>)
      requires Valid() && Fresh(frames, d, own, free, order) && frames[d] == Table(Blank())
      modifies this
      ensures Valid() && |frames| == old(|frames|) && Fresh(frames, d, own', free, order)
      ensures forall g :: 0 <= g < |frames| && g !in free ==> frames[g] == old(frames[g])
      ensures ok ==> IsTable(frames, d) && forall i :: 0 <= i < NENTRIES ==> frames[d].e[i].present == KernelDir(i)
      ensures if ok then old(|order|) == |order| + KernelFrames(NENTRIES) else old(|order|) < KernelFrames(NENTRIES)
    {
      hide FreeOk;
      FreshDir(frames, d, own, free, order);
      hide Fresh;
      own' := own;
      ok := true;
      var i := NUSER;
      while i < NENTRIES
        invariant NUSER <= i <= NENTRIES && ok && Valid() && |frames| == old(|frames|)
                  && Fresh(frames, d, own', free, order) && IsTable(frames, d)
        invariant forall k :: 0 <= k < NENTRIES ==> frames[d].e[k].present == (k < i && KernelDir(k))
        invariant old(|order|) == |order| + KernelFrames(i)
        invariant forall g :: 0 <= g < |frames| && g !in free ==> frames[g] == old(frames[g])
      {
        MoreKernel(i + 1, NENTRIES);
        if KernelDir(i) {
          ok, own' := KernelTable(d, i, own', free);
          if !ok { return; }
        }
        i := i + 1;
      }
    }

    /** setupkvm: a directory and the tables for the kernel's part; -1 if memory runs out. */
    method Setupkvm() returns (d: int, ghost own: map<nat, Use>)
      requires Valid()
      modifies this
      ensures Valid() && |frames| == old(|frames|)
      ensures forall g :: 0 <= g < |frames| && g !in old(order) ==> frames[g] == old(frames[g])
      ensures d == NONE ==> SetOf(order) == SetOf(old(order))
      ensures d != NONE ==> d >= 0 && Fresh(frames, d, own, SetOf(old(order)), order)
      ensures d != NONE ==> forall i :: 0 <= i < NENTRIES ==> frames[d].e[i].present == KernelDir(i)
      ensures if d != NONE then old(|order|) == |order| + 1 + KernelFrames(NENTRIES)
              else old(|order|) < 1 + KernelFrames(NENTRIES)
    {
      hide FreeOk;
      hide KernelFrames;
      ghost var free := SetOf(order);
      d, own := NewDir();
      if d == NONE { return; }
      FreshDir(frames, d, own, free, order);
      hide Fresh;
      var ok;
      ok, own := KernelTables(d, own, free);
      FreshDir(frames, d, own, free, order);
      if !ok {
        Freevm(d, own);
        d := NONE;
      }
    }

    /** One directory entry of the copy. */
    method CopyDirEntry(d: nat, nd: nat, i: nat, ghost own: map<nat, Use>, ghost nown: map<nat, Use>,
                        ghost free: set<nat>)
      returns (ok: bool, ghost nown': map<nat, Use>)
      requires Valid() && i < NUSER && Space(frames, d, own) && own.Keys !! free && Fresh(frames, nd, nown, free, order)
               && Copied(frames, d, nd, i)
      modifies this
      ensures Valid() && |frames| == old(|frames|)
      ensures forall g :: 0 <= g < |frames| && g !in free ==> frames[g] == old(frames[g])
      ensures ok ==> Fresh(frames, nd, nown', free, order) && Copied(frames, d, nd, i + 1)
      ensures !ok ==> nown' == nown && Space(frames, nd, nown) && Apart(nown, order) && SetOf(order) <= free
      ensures old(frames[d].e[i].present) ==>
                && old(IsTable(frames, frames[d].e[i].frame))
                && if ok then old(|order|) == |order| + old(TabFrames(frames[frames[d].e[i].frame].e))
                   else old(|order|) < old(TabFrames(frames[frames[d].e[i].frame].e))
      ensures !old(frames[d].e[i].present) ==> ok && |order| == old(|order|)
    {
      hide FreeOk;
      nown' := nown;
      SpaceDir(frames, d, own);
      if !frames[d].e[i].present {
        CopiedSkip(frames, d, nd, i);
        return true, nown;
      }
      var t := frames[d].e[i].frame;
      ghost var before, was := frames, order;
      SpaceCopyable(frames, d, own, i, SetOf(order));
      var nt, leaves := CopyTable(t, i);
      SpaceKept(before, frames, d, own);
      SpaceKept(before, frames, nd, nown);
      if nt == NONE { return false, nown; }
      CopiedKept(before, frames, d, nd, own, nown, i);
      SpaceDir(frames, nd, nown);
      CopyingNew(frames, order, SetOf(was), t, nt, i, leaves, nown);
      CopiedNext(frames, order, SetOf(was), d, nd, own, nown, i, nt, leaves, Pte(nt, true, false, USER_BITS));
      nown' := AddTable(nd, i, nt, nown, leaves);
      JoinedKeys(nown, i, nt, leaves);
      ok := true;
    }

    /** copyuvm's loop over the directory. */
    method CopyTables(d: nat, nd: nat, ghost own: map<nat, Use>, ghost nown: map<nat, Use>, ghost free: set<nat>)
      returns (ok: bool, ghost nown': map<nat, Use>)
      requires Valid() && Space(frames, d, own) && own.Keys !! free && Fresh(frames, nd, nown, free, order)
               && Copied(frames, d, nd, 0)
      modifies this
      ensures Valid() && |frames| == old(|frames|)
      ensures forall g :: 0 <= g < |frames| && g !in free ==> frames[g] == old(frames[g])
      ensures ok ==> Fresh(frames, nd, nown', free, order) && Copied(frames, d, nd, NUSER)
      ensures !ok ==> Space(frames, nd, nown') && Apart(nown', order) && nown'.Keys <= free && SetOf(order) <= free
      ensures old(Walkable(frames, d))
      ensures if ok then old(|order|) == |order| + old(DirFrames(frames, d, NUSER))
              else old(|order|) < old(DirFrames(frames, d, NUSER))
    {
      hide FreeOk;
      hide Copied;
      hide Space;
      SpaceWalkable(frames, d, own);
      ghost var was := frames;
      nown' := nown;
      ok := true;
      var i := 0;
      while i < NUSER
        invariant i <= NUSER && ok && Valid() && |frames| == |was| && Space(frames, d, own)
        invariant Fresh(frames, nd, nown', free, order) && Copied(frames, d, nd, i)
        invariant old(|order|) == |order| + DirFrames(was, d, i)
        invariant forall g :: 0 <= g < |frames| && g !in free ==> frames[g] == was[g]
      {
        ghost var before := frames;
        SameTable(was, frames, d, own, i, free);
        MoreFrames(was, d, i + 1, NUSER);
        FreshDir(frames, nd, nown', free, order);
        ok, nown' := CopyDirEntry(d, nd, i, own, nown', free);
        if !ok { return; }
        SpaceKept(before, frames, d, own);
        i := i + 1;
      }
    }

    /** copyuvm: a copy of a space for a child; -1 if there are too few free frames. The copy has the same
        flags, lazy marks and contents, and all its frames are ones that were free before. */
    method Copyuvm(d: nat, ghost own: map<nat, Use>) returns (nd: int, ghost nown: map<nat, Use>)
      requires Valid() && Space(frames, d, own) && Apart(own, order)
      modifies this
      ensures Valid() && |frames| == old(|frames|)
      ensures forall g :: 0 <= g < |frames| && g !in old(order) ==> frames[g] == old(frames[g])
      ensures Space(frames, d, own)
      ensures nd != NONE ==>
                nd >= 0 && Fresh(frames, nd, nown, SetOf(old(order)), order) && Copied(frames, d, nd, NUSER)
      ensures old(Walkable(frames, d))
      ensures nd != NONE <==> old(|order|) >= 1 + KernelFrames(NENTRIES) + old(DirFrames(frames, d, NUSER))
    {
      hide FreeOk;
      hide Copied;
      hide Space;
      SpaceWalkable(frames, d, own);
      ghost var free := SetOf(order);
      ghost var before := frames;
      nd, nown := Setupkvm();
      SpaceKept(before, frames, d, own);
      SameFrames(before, frames, d, own, free, NUSER);
      if nd == NONE { return; }
      FreshDir(frames, nd, nown, free, order);
      CopiedStart(frames, d, nd, own, nown, free, order);
      var ok;
      ok, nown := CopyTables(d, nd, own, nown, free);
      if !ok {
        Freevm(nd, nown);
        nd := NONE;
      }
      SpaceKept(before, frames, d, own);
    }

    /** walkpgdir with alloc: the table for page `v`, made if missing; -1 if memory runs out. */
    method Walkpgdir(d: nat, v: nat, ghost own: map<nat, Use>) returns (t: int, ghost own': map<nat, Use>)
      requires Valid() && Space(frames, d, own) && Apart(own, order) && v < NUSER * NENTRIES
      modifies this
      ensures Valid() && |frames| == old(|frames|) && Space(frames, d, own') && Apart(own', order)
      ensures forall g :: g in own ==> g in own' && own'[g] == own[g]
      ensures Taken(old(order), order, own, own') && PagesKept(old(frames), frames, own)
      ensures forall g :: 0 <= g < |frames| && g !in own && g !in old(order) ==> frames[g] == old(frames[g])
      ensures forall u: nat :: PteAt(frames, d, u) == old(PteAt(frames, d, u))
      ensures if t == NONE then order == old(order) == [] && frames == old(frames) && own' == own
              && !HasTable(old(frames), d, v) else TableAt(frames, d, v, t)
      ensures forall g :: g in own' && g !in own ==> own'[g] == Tab(v / NENTRIES)
      ensures t != NONE ==> old(|order|) == |order| + (if HasTable(old(frames), d, v) then 0 else 1)
      ensures forall u: nat :: HasTable(frames, d, u)
                               == (HasTable(old(frames), d, u) || (t != NONE && u / NENTRIES == v / NENTRIES))
    {
      IndexSplit(v);
      SpaceDir(frames, d, own);
      var i := v / NENTRIES;
      own' := own;
      if frames[d].e[i].present {
        LeafFacts(frames, d, own, i, 0);
        return frames[d].e[i].frame, own;
      }
      ghost var was := order;
      t := Kalloc();
      if t == NONE { return; }
      assert was == [t] + order;
      own' := MakeTable(d, i, t, own);
      TakenOne(was, order, own, i, t);
    }

    /** A blank table for directory entry `i`. */
    method MakeTable(d: nat, i: nat, t: nat, ghost own: map<nat, Use>) returns (ghost own': map<nat, Use>)
      requires Valid() && Space(frames, d, own) && Apart(own, order) && i < NUSER && !frames[d].e[i].present
      requires t < |frames| && t !in own && t !in order
      modifies this`frames
      ensures Valid() && |frames| == old(|frames|) && Space(frames, d, own') && Apart(own', order)
              && own' == Joined(own, i, t, map[])
      ensures PagesKept(old(frames), frames, own) && IsTable(frames, d) && frames[d].e[i].present
              && frames[d].e[i].frame == t && IsTable(frames, t)
      ensures forall g :: 0 <= g < |frames| && g !in own && g != t ==> frames[g] == old(frames[g])
      ensures forall u: nat :: PteAt(frames, d, u) == old(PteAt(frames, d, u))
      ensures forall u: nat :: HasTable(frames, d, u) == (HasTable(old(frames), d, u) || u / NENTRIES == i)
    {
      ghost var before := frames;
      SpaceDir(frames, d, own);
      Written(frames, freelist, order, t, Table(Blank()));
      SpaceKept(frames, frames[t := Table(Blank())], d, own);
      frames := frames[t := Table(Blank())];
      BlankLeaves(frames, t, i);
      own' := AddTable(d, i, t, own, map[]);
      forall u: nat ensures PteAt(frames, d, u) == PteAt(before, d, u) { BlankPte(before, frames, d, own, i, t, u); }
    }

    /** mappages for one page: enter frame `f` for page `v`; false if a table was needed and memory ran out. */
    method MapPage(d: nat, v: nat, f: nat, ghost own: map<nat, Use>) returns (ok: bool, ghost own': map<nat, Use>)
      requires Valid() && Space(frames, d, own) && Apart(own, order) && v < NUSER * NENTRIES
               && !PteAt(frames, d, v).present
      requires f < |frames| && f !in own && f !in order && frames[f].Page?
      modifies this
      ensures Valid() && |frames| == old(|frames|) && Space(frames, d, own') && Apart(own', order)
      ensures forall g :: g in own ==> g in own' && own'[g] == own[g]
      ensures forall g :: g in own' && g !in own ==>
                own'[g] == Tab(v / NENTRIES) || (ok && g == f && own'[g] == Leaf(v / NENTRIES, v % NENTRIES))
      ensures PagesKept(old(frames), frames, own) && frames[f] == old(frames[f]) && f !in order
      ensures forall g :: 0 <= g < |frames| && g !in own && g !in old(order) ==> frames[g] == old(frames[g])
      ensures forall u: nat ::
                PteAt(frames, d, u) == if ok && u == v then Pte(f, true, false, USER_BITS) else old(PteAt(frames, d, u))
      ensures if ok then Taken([f] + old(order), order, own, own')
              else own' == own && frames == old(frames) && order == old(order) == [] && !HasTable(old(frames), d, v)
      ensures ok ==> old(|order|) == |order| + (if HasTable(old(frames), d, v) then 0 else 1)
      ensures ok ==>
                forall u: nat :: HasTable(frames, d, u) == (HasTable(old(frames), d, u) || u / NENTRIES == v / NENTRIES)
    {
      hide PteAt;
      hide HasTable;
      hide Space;
      hide FreeOk;
      var t;
      t, own' := Walkpgdir(d, v, own);
      ok := t != NONE;
      if !ok { return; }
      var p := Pte(f, true, false, USER_BITS);
      TakenNew(old(order), order, own, own', f);
      PageEntered(frames, d, own', v, t, p);
      TakenNew(old(order), order, own, own', t);
      Written(frames, freelist, order, t, Table(frames[t].e[v % NENTRIES := p]));
      TakenPage(old(order), order, own, own', f, Leaf(v / NENTRIES, v % NENTRIES));
      frames := WithPte(frames, t, v % NENTRIES, p);
      own' := own'[f := Leaf(v / NENTRIES, v % NENTRIES)];
    }

    /** allocuvm has mapped the pages in [lo, v); `spare` is a frame taken and not mapped yet. */
    ghost predicate Growing(was: seq<Frame>, worder: seq<nat>, own0: map<nat, Use>, own: map<nat, Use>, d: nat, lo: nat,
                            v: nat, spare: seq<nat>)
      reads this
    {
      && Valid() && Space(frames, d, own) && Apart(own, order) && |frames| == |was|
      && (forall g :: g in own0 ==> g in own && own[g] == own0[g])
      && (forall g :: g in own && g !in own0 ==> own[g].Tab? || Within(own[g], lo, v))
      && Taken(worder, spare + order, own0, own) && PagesKept(was, frames, own0) && Mapped(was, frames, d, lo, v)
      && |worder| == |spare| + |order| + FramesFor(was, d, lo, v) && TablesFor(was, frames, d, lo, v)
      && (forall g :: 0 <= g < |was| && g !in own0 && g !in worder ==> frames[g] == was[g])
      && (forall f :: f in spare ==> f < |frames| && f !in own && f !in order && frames[f] == Page(Zeros()))
    }

    /** allocuvm takes a frame and clears it. */
    method SparePage(d: nat, lo: nat, v: nat, ghost was: seq<Frame>, ghost worder: seq<nat>, ghost own0: map<nat, Use>,
                     ghost own: map<nat, Use>)
      returns (f: int)
      requires Growing(was, worder, own0, own, d, lo, v, [])
      modifies this
      ensures f == NONE ==>
                order == old(order) == [] && frames == old(frames) && Growing(was, worder, own0, own, d, lo, v, [])
      ensures f != NONE ==> f >= 0 && Growing(was, worder, own0, own, d, lo, v, [f])
    {
      hide Space;
      hide FreeOk;
      hide Mapped;
      hide TablesFor;
      hide Taken;
      hide PagesKept;
      hide FramesFor;
      hide Zeros;
      ghost var o := order;
      assert [] + o == o;
      f := Kalloc();
      assert [] + order == order;
      if f == NONE { return; }
      assert o == [f] + order;
      SpareInWas(worder, o, own0, own, f);
      Written(frames, freelist, order, f, Page(Zeros()));
      SpaceKept(frames, frames[f := Page(Zeros())], d, own);
      SpareMapped(was, frames, d, own0, own, lo, v, f, Page(Zeros()));
      frames := frames[f := Page(Zeros())];
    }

    /** The spare page is mapped at `v`. */
    method MapSpare(d: nat, lo: nat, v: nat, f: nat, ghost was: seq<Frame>, ghost worder: seq<nat>,
                    ghost own0: map<nat, Use>, ghost own: map<nat, Use>)
      returns (ok: bool, ghost own': map<nat, Use>)
      requires Growing(was, worder, own0, own, d, lo, v, [f]) && lo <= v < NUSER * NENTRIES && !PteAt(was, d, v).present
      modifies this
      ensures ok ==> Growing(was, worder, own0, own', d, lo, v + 1, [])
      ensures !ok ==>
                own' == own && Growing(was, worder, own0, own, d, lo, v, [f]) && |worder| < FramesFor(was, d, lo, v + 1)
    {
      hide Space;
      hide FreeOk;
      hide Taken;
      hide TablesFor;
      hide PagesKept;
      hide Zeros;
      ghost var before, o := frames, order;
      assert PteAt(frames, d, v) == PteAt(was, d, v);
      hide Mapped;
      hide PteAt;
      NextTable(was, frames, d, lo, v);
      assert Spare(f, own, frames, order) by { assert f in [f]; }
      ok, own' := MapPage(d, v, f, own);
      if ok {
        GrownKept(was, before, frames, own0, own, own', o, order, worder, f);
        MappedNext(was, before, frames, d, own, lo, v, f);
        TablesNext(was, before, frames, d, lo, v);
        IndexSplit(v);
        assert [] + order == order;
        OutsideKept(was, before, frames, own0, own, o, worder, f);
      } else {
        FailKept(was, before, frames, d, own0, own, lo, v);
      }
    }

    /** allocuvm gives up: all pages of the range, and the spare one, go back; new tables stay. */
    method Rollback(d: nat, lo: nat, v: nat, hi: nat, f: int, ghost was: seq<Frame>, ghost worder: seq<nat>,
                    ghost own0: map<nat, Use>, ghost own: map<nat, Use>)
      returns (ghost left: map<nat, Use>)
      requires f >= NONE && Growing(was, worder, own0, own, d, lo, v, if f == NONE then [] else [f])
               && lo <= v <= hi <= NUSER * NENTRIES
      modifies this
      ensures Valid() && |frames| == |was| && Space(frames, d, left) && Apart(left, order)
              && Undone(was, frames, d, lo, hi)
      ensures Extends(TrimTo(own0, lo, hi), left) && Balanced(worder, order, own0, left)
              && PagesKept(was, frames, TrimTo(own0, lo, hi))
      ensures forall g :: 0 <= g < |was| && g !in own0 && g !in worder ==> frames[g] == was[g]
    {
      ghost var before, o := frames, order;
      ghost var spare := if f == NONE then [] else [f];
      assert f != NONE ==> f in spare;
      hide Space;
      hide FreeOk;
      hide Mapped;
      hide Taken;
      hide PagesKept;
      hide TablesFor;
      hide Cleared;
      left := Deallocuvm(d, lo, hi, own);
      UndoneFacts(was, before, frames, d, own0, own, left, lo, v, hi);
      BackBalanced(worder, o, order, own0, own, left, spare);
      OutsideBack(was, before, frames, own0, own, spare + o, worder);
      if f != NONE {
        SpareBack(o, order, own, left, f);
        SpareUndone(was, frames, d, TrimTo(own0, lo, hi), left, lo, hi, f, Run(freelist));
        Kfree(f);
      } else {
        assert [] + order == order;
      }
    }

    /** Is page `v` present? */
    method IsPresent(d: nat, v: nat, ghost own: map<nat, Use>) returns (b: bool)
      requires Space(frames, d, own) && v < NUSER * NENTRIES
      ensures b == PteAt(frames, d, v).present
    {
      IndexSplit(v);
      SpaceDir(frames, d, own);
      var i := v / NENTRIES;
      if !frames[d].e[i].present { return false; }
      LeafFacts(frames, d, own, i, v % NENTRIES);
      b := frames[frames[d].e[i].frame].e[v % NENTRIES].present;
    }

    /** allocuvm's loop on page numbers: map fresh pages of zeroes in [lo, hi), all or, if memory runs
        out, none; mappages panics at a page that is present, if there is still a frame for it. */
    method AllocPages(d: nat, lo: nat, hi: nat, ghost own0: map<nat, Use>) returns (r: Growth, ghost own: map<nat, Use>)
      requires Valid() && Space(frames, d, own0) && Apart(own0, order) && lo <= hi <= NUSER * NENTRIES
      modifies this
      ensures r == Outcome(old(frames), old(|order|), d, lo, hi)
      ensures r != Remap ==> Valid() && |frames| == old(|frames|) && Space(frames, d, own) && Apart(own, order)
      ensures r == Grown ==>
                Mapped(old(frames), frames, d, lo, hi) && Taken(old(order), order, own0, own)
                && PagesKept(old(frames), frames, own0) && forall g :: g in own0 ==> g in own && own[g] == own0[g]
      ensures r == NoMemory ==>
                Undone(old(frames), frames, d, lo, hi) && Extends(TrimTo(own0, lo, hi), own)
                && Balanced(old(order), order, own0, own) && PagesKept(old(frames), frames, TrimTo(own0, lo, hi))
      ensures r != Remap ==>
                forall g :: 0 <= g < |frames| && g !in own0 && g !in old(order) ==> frames[g] == old(frames[g])
    {
      hide Growing;
      hide Space;
      hide FreeOk;
      hide FramesFor;
      hide PteAt;
      hide Taken;
      hide Balanced;
      ghost var was, worder := frames, order;
      Begin(d, own0, lo);
      own := own0;
      var v := lo;
      while v < hi
        invariant lo <= v <= hi && Growing(was, worder, own0, own, d, lo, v, [])
        invariant forall w: nat :: lo <= w < v ==> !PteAt(was, d, w).present
      {
        var f := SparePage(d, lo, v, was, worder, own0, own);
        NoRemap(was, d, lo, v, hi);
        FramesMore(was, d, lo, v + 1, Reach(was, d, lo, hi));
        if f == NONE {
          NoSpare(d, lo, v, was, worder, own0, own);
          own := Rollback(d, lo, v, hi, NONE, was, worder, own0, own);
          return NoMemory, own;
        }
        GrowingAt(d, lo, v, f, was, worder, own0, own);
        var present := IsPresent(d, v, own);
        if present {
          RemapReached(was, d, lo, v, hi);
          return Remap, own;
        }
        var mapped;
        mapped, own := MapSpare(d, lo, v, f, was, worder, own0, own);
        if !mapped {
          own := Rollback(d, lo, v, hi, f, was, worder, own0, own);
          return NoMemory, own;
        }
        v := v + 1;
      }
      End(d, lo, hi, was, worder, own0, own);
      NoRemap(was, d, lo, hi, hi);
      r := Grown;
    }

    lemma GrowingAt(d: nat, lo: nat, v: nat, f: nat, was: seq<Frame>, worder: seq<nat>, own0: map<nat, Use>,
                    own: map<nat, Use>)
      requires Growing(was, worder, own0, own, d, lo, v, [f])
      ensures Space(frames, d, own) && PteAt(frames, d, v) == PteAt(was, d, v)
      ensures |worder| >= FramesFor(was, d, lo, v) + 1
    {
      hide PteAt;
      hide Space;
      hide FreeOk;
    }

    lemma Begin(d: nat, own0: map<nat, Use>, lo: nat)
      requires Valid() && Space(frames, d, own0) && Apart(own0, order)
      ensures Growing(frames, order, own0, own0, d, lo, lo, [])
    {
      GrowStart(frames, order, d, own0, lo);
    }

    lemma End(d: nat, lo: nat, v: nat, was: seq<Frame>, worder: seq<nat>, own0: map<nat, Use>, own: map<nat, Use>)
      requires Growing(was, worder, own0, own, d, lo, v, [])
      ensures Valid() && |frames| == |was| && Space(frames, d, own) && Apart(own, order)
              && Taken(worder, order, own0, own) && PagesKept(was, frames, own0)
      ensures Mapped(was, frames, d, lo, v) && |worder| >= FramesFor(was, d, lo, v)
      ensures forall g :: g in own0 ==> g in own && own[g] == own0[g]
      ensures forall g :: 0 <= g < |was| && g !in own0 && g !in worder ==> frames[g] == was[g]
    {
      assert [] + order == order;
    }

    /** With no free frame left, the next page is one too many. */
    lemma NoSpare(d: nat, lo: nat, v: nat, was: seq<Frame>, worder: seq<nat>, own0: map<nat, Use>, own: map<nat, Use>)
      requires Growing(was, worder, own0, own, d, lo, v, []) && order == [] && lo <= v
      ensures |worder| < FramesFor(was, d, lo, v + 1)
    {}

    /** allocuvm: grow a space from `oldsz` to `newsz` bytes; the new size, or 0. `panic` is the remap
        panic of mappages. */
    method Allocuvm(d: nat, oldsz: nat, newsz: nat, ghost own0: map<nat, Use>)
      returns (sz: nat, panic: bool, ghost own: map<nat, Use>)
      requires Valid() && Space(frames, d, own0) && Apart(own0, order)
      modifies this
      ensures newsz >= KERNBASE ==> !panic && sz == 0 && frames == old(frames)
      ensures newsz < KERNBASE && newsz < oldsz ==> !panic && sz == oldsz && frames == old(frames)
      ensures oldsz <= newsz < KERNBASE ==>
                var lo, hi := Pages(oldsz), Pages(newsz);
                match Outcome(old(frames), old(|order|), d, lo, hi)
                case Remap => panic
                case Grown =>
                  && !panic && sz == newsz && Mapped(old(frames), frames, d, lo, hi)
                  && Taken(old(order), order, own0, own) && PagesKept(old(frames), frames, own0)
                case NoMemory =>
                  && !panic && sz == 0 && Undone(old(frames), frames, d, lo, hi)
                  && Extends(TrimTo(own0, lo, hi), own) && Balanced(old(order), order, own0, own)
                  && PagesKept(old(frames), frames, TrimTo(own0, lo, hi))
      ensures !panic ==> Valid() && |frames| == old(|frames|) && Space(frames, d, own) && Apart(own, order)
      ensures !panic ==>
                forall g :: 0 <= g < |frames| && g !in own0 && g !in old(order) ==> frames[g] == old(frames[g])
    {
      hide Space;
      hide FreeOk;
      hide Outcome;
      own, panic := own0, false;
      if newsz >= KERNBASE { return 0, false, own; }
      if newsz < oldsz { return oldsz, false, own; }
      PagesBound(oldsz, newsz);
      var r;
      r, own := AllocPages(d, Pages(oldsz), Pages(newsz), own0);
      sz := if r == Grown then newsz else 0;
      panic := r == Remap;
    }

    /** sys_numvp with `lazy`, sys_numpp without: the pages of the space, and one for the stack guard. */
    method NumPages(d: nat, lazy: bool) returns (n: nat)
      requires Walkable(frames, d)
      ensures n == |CountedPages(frames, d, NUSER * NENTRIES, lazy)| + 1
    {
      var cnt := 0;
      var i := 0;
      while i < NUSER
        invariant i <= NUSER && cnt == DirPages(frames, d, i, lazy)
      {
        if frames[d].e[i].present {
          var e := frames[frames[d].e[i].frame].e;
          ghost var base := cnt;
          var j := 0;
          while j < NENTRIES
            invariant j <= NENTRIES && cnt == base + TabPages(e, j, lazy)
          {
            if e[j].present || (lazy && e[j].lazy) { cnt := cnt + 1; }
            j := j + 1;
          }
        }
        i := i + 1;
      }
      CountedAll(frames, d, NUSER, lazy);
      n := cnt + 1;
    }
  }
}
