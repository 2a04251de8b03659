/** Path names: skipelem and namex as the loops of fs.c, against the components of a path and a fold
    of directory lookups over them; and the references the walk takes and drops. */
module Path {

  import opened Links
  import opened Params

  // ---------- components ----------

  /** The pieces of a path between slashes. */
  function Split(s: string): (r: seq<string>)
    ensures |r| > 0
  {
    if s == "" then [""]
    else if s[0] == '/' then [""] + Split(s[1..])
    else var r := Split(s[1..]); [[s[0]] + r[0]] + r[1..]
  }

  /** The nonempty pieces, cut to what directories store. */
  function Keep(p: seq<string>): seq<string> {
    if p == [] then [] else (if p[0] == "" then [] else [Cut(p[0])]) + Keep(p[1..])
  }

  function Components(path: string): seq<string> { Keep(Split(path)) }

  lemma SlashComponents(s: string)
    requires s != "" && s[0] == '/'
    ensures Components(s) == Components(s[1..])
  {
    assert ([""] + Split(s[1..]))[1..] == Split(s[1..]);
  }

  /** A run of `n` characters without a slash, up to a slash or the end, is one piece. */
  lemma {:induction false} SplitRun(s: string, n: nat)
    requires n <= |s| && (forall k :: 0 <= k < n ==> s[k] != '/') && (n == |s| || s[n] == '/')
    ensures Split(s) == [s[..n]] + (if n == |s| then [] else Split(s[n + 1..]))
  {
    if n > 0 {
      var t := s[1..];
      SplitRun(t, n - 1);
      assert [s[0]] + t[..n - 1] == s[..n];
      assert n < |s| ==> t[n..] == s[n + 1..];
    }
  }

  lemma RunComponents(s: string, n: nat)
    requires 0 < n <= |s| && (forall k :: 0 <= k < n ==> s[k] != '/') && (n == |s| || s[n] == '/')
    ensures Components(s) == [Cut(s[..n])] + Components(s[n..])
  {
    SplitRun(s, n);
    var rest := if n == |s| then [] else Split(s[n + 1..]);
    assert ([s[..n]] + rest)[1..] == rest;
    assert [s[..n]] + rest != [];
    if n < |s| { SlashComponents(s[n..]); assert s[n..][1..] == s[n + 1..]; }
  }

  // ---------- resolution ----------

  /** BadInode: the walk reached an inode that is not in use, where ilock panics. */
  datatype Outcome = Found(i: nat) | NotFound | BadInode

  predicate InUse(fs: seq<Node>, i: nat) { i < |fs| && fs[i].kind != Free }

  /** One lookup. */
  function Enter(fs: seq<Node>, i: nat, name: string): Outcome {
    if !InUse(fs, i) then BadInode
    else if fs[i].kind != Dir then NotFound
    else var k := Lookup(fs[i].ents, name, 0); if k == -1 then NotFound else Found(fs[i].ents[k].inum)
  }

  /** Lookups folded over the components. */
  function Walk(fs: seq<Node>, i: nat, c: seq<string>): Outcome
    decreases |c|
  {
    if c == [] then Found(i)
    else
      var o := Enter(fs, i, c[0]);
      if o.Found? then Walk(fs, o.i, c[1..]) else o
  }

  /** Where nameiparent stops: the directory that should hold the last component. */
  function WalkParent(fs: seq<Node>, i: nat, c: seq<string>): Outcome
    decreases |c|
  {
    if c == [] then NotFound
    else if |c| == 1 then if !InUse(fs, i) then BadInode else if fs[i].kind != Dir then NotFound else Found(i)
    else
      var o := Enter(fs, i, c[0]);
      if o.Found? then WalkParent(fs, o.i, c[1..]) else o
  }

  /** nameiparent followed by a lookup of the last component is namei. */
  lemma {:induction false} ParentThenLookup(fs: seq<Node>, i: nat, c: seq<string>)
    requires c != []
    ensures var d := WalkParent(fs, i, c);
            Walk(fs, i, c) == if d.Found? then Enter(fs, d.i, c[|c| - 1]) else d
    ensures WalkParent(fs, i, c).Found? ==> IsDir(fs, WalkParent(fs, i, c).i)
    decreases |c|
  {
    if |c| > 1 {
      var o := Enter(fs, i, c[0]);
      if o.Found? { ParentThenLookup(fs, o.i, c[1..]); }
    } else {
      assert c[1..] == [];
    }
  }

  /** Resolving a path is resolving its first part and going on from there. */
  lemma {:induction false} WalkAppend(fs: seq<Node>, i: nat, a: seq<string>, b: seq<string>)
    ensures Walk(fs, i, a + b) == var o := Walk(fs, i, a); if o.Found? then Walk(fs, o.i, b) else o
    decreases |a|
  {
    if a == [] {
      assert a + b == b;
    } else {
      assert (a + b)[1..] == a[1..] + b;
      var o := Enter(fs, i, a[0]);
      if o.Found? { WalkAppend(fs, o.i, a[1..], b); }
    }
  }

  /** From a linked directory every lookup leads to an inode in use, so no walk panics. */
  lemma {:induction false} NoPanic(fs: seq<Node>, loc: map<nat, (nat, nat)>, pending: multiset<nat>, i: nat,
                                   c: seq<string>)
    requires Inv(fs, loc, pending) && InUse(fs, i) && fs[i].nlink > 0
    ensures Walk(fs, i, c) != BadInode && (Walk(fs, i, c).Found? ==> InUse(fs, Walk(fs, i, c).i))
    decreases |c|
  {
    if c != [] {
      var o := Enter(fs, i, c[0]);
      if o.Found? {
        NoDangling(fs, loc, pending, i, Lookup(fs[i].ents, c[0], 0));
        NoPanic(fs, loc, pending, o.i, c[1..]);
      }
    }
  }

  // ---------- when a walk panics ----------

  /** A directory whose last link is gone; a process may still have it as its current directory. */
  ghost predicate Removed(fs: seq<Node>, d: nat) {
    IsDir(fs, d) && fs[d].nlink <= 0 && |fs[d].ents| >= 2
  }

  /** Removed directories, each the parent of the one before, and what the last one's ".." names. */
  ghost predicate UpChain(fs: seq<Node>, ch: seq<nat>) {
    |ch| > 0 && forall k :: 0 <= k < |ch| - 1 ==> Removed(fs, ch[k]) && fs[ch[k]].ents[1].inum == ch[k + 1]
  }

  /** Going up from `i` through removed directories ends at an inode that is not in use. */
  ghost predicate Lost(fs: seq<Node>, i: nat) {
    exists ch :: UpChain(fs, ch) && ch[0] == i && !InUse(fs, ch[|ch| - 1])
  }

  /** In a removed directory only the dots are found. */
  lemma RemovedEntries(fs: seq<Node>, loc: map<nat, (nat, nat)>, pending: multiset<nat>, d: nat, name: string)
    requires Inv(fs, loc, pending) && IsDir(fs, d) && fs[d].nlink <= 0
    ensures Removed(fs, d)
    ensures Enter(fs, d, name) == if Cut(name) == "." then Found(d)
                                  else if Cut(name) == ".." then Found(fs[d].ents[1].inum)
                                  else NotFound
  {
    assert DirOk(fs, d);
    var e, k := fs[d].ents, Lookup(fs[d].ents, name, 0);
    assert e[0].name == "." && e[1].name == "..";
    assert Match(e[0], name) <==> Cut(name) == "." && d != 0;
    assert Match(e[1], name) <==> Cut(name) == "..";
    assert d != 0;
  }

  lemma LostUp(fs: seq<Node>, d: nat)
    requires Removed(fs, d) && Lost(fs, fs[d].ents[1].inum)
    ensures Lost(fs, d)
  {
    var up := fs[d].ents[1].inum;
    var ch :| UpChain(fs, ch) && ch[0] == up && !InUse(fs, ch[|ch| - 1]);
    var ch' := [d] + ch;
    assert UpChain(fs, ch') by {
      forall k | 0 <= k < |ch'| - 1 ensures Removed(fs, ch'[k]) && fs[ch'[k]].ents[1].inum == ch'[k + 1] {
        assert k == 0 || (ch'[k] == ch[k - 1] && ch'[k + 1] == ch[k - 1 + 1]);
      }
    }
    assert ch'[|ch'| - 1] == ch[|ch| - 1];
  }

  /** A walk that panics went up out of removed directories. */
  lemma {:induction false} PanicLost(fs: seq<Node>, loc: map<nat, (nat, nat)>, pending: multiset<nat>, i: nat,
                                     c: seq<string>)
    requires Inv(fs, loc, pending) && Walk(fs, i, c) == BadInode
    ensures Lost(fs, i)
    decreases |c|
  {
    if !InUse(fs, i) {
      assert UpChain(fs, [i]);
    } else if fs[i].nlink > 0 {
      NoPanic(fs, loc, pending, i, c);
    } else {
      assert c != [] && Enter(fs, i, c[0]).Found?;
      RemovedEntries(fs, loc, pending, i, c[0]);
      PanicLost(fs, loc, pending, Enter(fs, i, c[0]).i, c[1..]);
      if Cut(c[0]) != "." { LostUp(fs, i); }
    }
  }

  /** Up the chain and one step more. */
  function Ups(n: nat): seq<string> { if n == 0 then ["x"] else [".."] + Ups(n - 1) }

  lemma {:induction false} ChainPanics(fs: seq<Node>, loc: map<nat, (nat, nat)>, pending: multiset<nat>, ch: seq<nat>)
    requires Inv(fs, loc, pending) && UpChain(fs, ch) && !InUse(fs, ch[|ch| - 1])
    ensures Walk(fs, ch[0], Ups(|ch| - 1)) == BadInode
    decreases |ch|
  {
    if |ch| > 1 {
      var up := ch[1..];
      forall k | 0 <= k < |up| - 1 ensures Removed(fs, up[k]) && fs[up[k]].ents[1].inum == up[k + 1] {
        assert up[k] == ch[k + 1] && up[k + 1] == ch[k + 1 + 1];
      }
      ChainPanics(fs, loc, pending, up);
      assert Removed(fs, ch[0]) && fs[ch[0]].ents[1].inum == ch[0 + 1] == up[0];
      RemovedEntries(fs, loc, pending, ch[0], "..");
      assert Ups(|ch| - 1)[1..] == Ups(|up| - 1);
    }
  }

  /** Some path panics in ilock exactly when the start is lost. */
  lemma PanicIff(fs: seq<Node>, loc: map<nat, (nat, nat)>, pending: multiset<nat>, i: nat)
    requires Inv(fs, loc, pending)
    ensures (exists c :: Walk(fs, i, c) == BadInode) <==> Lost(fs, i)
  {
    if c :| Walk(fs, i, c) == BadInode { PanicLost(fs, loc, pending, i, c); }
    if ch :| UpChain(fs, ch) && ch[0] == i && !InUse(fs, ch[|ch| - 1]) { ChainPanics(fs, loc, pending, ch); }
  }

  /** Four inodes: the root, "a", and "a/b", with the entry of each in its parent. */
  function Nested(a: Ent, la: int, b: Ent, lb: int): seq<Node> {
    [Node(Free, 0, []), Node(Dir, 1 + la, [Ent(1, "."), Ent(1, ".."), a]),
     Node(Dir, la + lb, [Ent(2, "."), Ent(1, ".."), b]), Node(Dir, lb, [Ent(3, "."), Ent(2, "..")])]
  }

  /** mkdir a/b in the tree that MakeA leaves. */
  lemma MakeB()
    ensures Step(World(Small(2, [Ent(2, "a")], 1, Node(Free, 0, [])), multiset{}), CreateOp(2, "b", 3, Dir),
                 World(Nested(Ent(2, "a"), 1, Ent(3, "b"), 1), multiset{}))
  {
    var fs := Small(2, [Ent(2, "a")], 1, Node(Free, 0, []));
    assert CanCreate(fs, 2, "b", 3, Dir);
    assert Slot(fs[2].ents, 0) == 2;
    assert Added(fs[2].ents, "b", 3) == [Ent(2, "."), Ent(1, ".."), Ent(3, "b")];
    hide Added;
    assert fs[1].ents == [Ent(1, "."), Ent(1, ".."), Ent(2, "a")];
    var g, h := Created(fs, 2, "b", 3, Dir), Nested(Ent(2, "a"), 1, Ent(3, "b"), 1);
    assert g[0] == h[0] && g[1] == h[1] && g[2] == h[2] && g[3] == h[3];
    assert g == h;
  }

  /** rmdir a/b, then rmdir a. */
  lemma RemoveBoth()
    ensures var w2 := World(Nested(Ent(2, "a"), 1, Ent(3, "b"), 1), multiset{});
            var w3 := World(Nested(Ent(2, "a"), 1, Ent(0, ""), 0), multiset{});
            var w4 := World(Nested(Ent(0, ""), 0, Ent(0, ""), 0), multiset{});
            Step(w2, UnlinkOp(2, 2), w3) && Step(w3, UnlinkOp(1, 2), w4)
  {
    var fs2, fs3 := Nested(Ent(2, "a"), 1, Ent(3, "b"), 1), Nested(Ent(2, "a"), 1, Ent(0, ""), 0);
    assert CanUnlink(fs2, 2, 2) && CanUnlink(fs3, 1, 2);
    var fs4, g, h := Nested(Ent(0, ""), 0, Ent(0, ""), 0), Unlinked(fs2, 2, 2), Unlinked(fs3, 1, 2);
    assert g[2].ents == fs3[2].ents && h[1].ents == fs4[1].ents;
    assert g[0] == fs3[0] && g[1] == fs3[1] && g[2] == fs3[2] && g[3] == fs3[3];
    assert h[0] == fs4[0] && h[1] == fs4[1] && h[2] == fs4[2] && h[3] == fs4[3];
    assert g == fs3 && h == fs4;
  }

  /** A process has a/b as its current directory while both directories go and the inode of a is
      freed; it then looks up "../x". */
  lemma LostDirectory() returns (ws: seq<World>, ops: seq<Op>)
    ensures Run(ws, ops)
    ensures ops == [CreateOp(1, "a", 2, Dir), CreateOp(2, "b", 3, Dir), UnlinkOp(2, 2), UnlinkOp(1, 2), FreeOp(2)]
    ensures var fs := ws[5].fs;
            && InUse(fs, 3) && Walk(fs, 3, [".."]) == Found(2) && !InUse(fs, 2)
            && Walk(fs, 3, ["..", "x"]) == BadInode
  {
    var free, none := Node(Free, 0, []), Ent(0, "");
    var w4 := World(Nested(none, 0, none, 0), multiset{});
    var w5 := World(w4.fs[2 := free], multiset{});
    ops := [CreateOp(1, "a", 2, Dir), CreateOp(2, "b", 3, Dir), UnlinkOp(2, 2), UnlinkOp(1, 2), FreeOp(2)];
    ws := [World(RootOnly(4), multiset{}), World(Small(2, [Ent(2, "a")], 1, free), multiset{}),
           World(Nested(Ent(2, "a"), 1, Ent(3, "b"), 1), multiset{}),
           World(Nested(Ent(2, "a"), 1, none, 0), multiset{}), w4, w5];
    MakeA();
    MakeB();
    RemoveBoth();
    assert Step(w4, FreeOp(2), w5);
    LostWalk(w5.fs);
    hide Step;
    hide Nested;
    hide Walk;
  }

  lemma LostWalk(fs: seq<Node>)
    requires |fs| == 4 && !InUse(fs, 2) && InUse(fs, 3) && fs[3].kind == Dir
    requires fs[3].ents == [Ent(3, "."), Ent(2, "..")]
    ensures Walk(fs, 3, [".."]) == Found(2) && Walk(fs, 3, ["..", "x"]) == BadInode
  {
    assert Lookup(fs[3].ents, "..", 0) == 1;
    assert Enter(fs, 3, "..") == Found(2) && Enter(fs, 2, "x") == BadInode;
    assert ["..", "x"][1..] == ["x"] && [".."][1..] == [];
  }

  // ---------- the loops of fs.c ----------

  method SkipSlashes(path: string, i: nat) returns (p: nat)
    requires i <= |path|
    ensures i <= p <= |path| && (p == |path| || path[p] != '/')
    ensures Components(path[i..]) == Components(path[p..])
  {
    p := i;
    while p < |path| && path[p] == '/'
      invariant i <= p <= |path| && Components(path[i..]) == Components(path[p..])
    {
      SlashComponents(path[p..]);
      assert path[p..][1..] == path[p + 1..];
      p := p + 1;
    }
  }

  lemma ComponentAt(path: string, s: nat, p: nat)
    requires s < p <= |path| && (forall k :: s <= k < p ==> path[k] != '/') && (p == |path| || path[p] == '/')
    ensures Components(path[s..]) == [Cut(path[s..p])] + Components(path[p..])
  {
    RunComponents(path[s..], p - s);
    assert path[s..][..p - s] == path[s..p] && path[s..][p - s..] == path[p..];
  }

  /** Copy the next component of `path` from position `i`; the position behind it and the slashes
      after it, or -1 if there is none. */
  method Skipelem(path: string, i: nat) returns (j: int, name: string)
    requires i <= |path|
    ensures j == -1 <==> Components(path[i..]) == []
    ensures j != -1 ==> i < j <= |path| && Components(path[i..]) == [name] + Components(path[j..])
    ensures j != -1 ==> (j == |path| <==> Components(path[j..]) == [])
  {
    hide Components;
    var p := SkipSlashes(path, i);
    if p == |path| {
      NoComponents(path[p..]);
      return -1, "";
    }
    var s := p;
    while p < |path| && path[p] != '/'
      invariant s <= p <= |path| && forall k :: s <= k < p ==> path[k] != '/'
    {
      p := p + 1;
    }
    ComponentAt(path, s, p);
    name := if p - s >= DIRSIZ then path[s..s + DIRSIZ] else path[s..p];
    assert name == Cut(path[s..p]);
    j := SkipSlashes(path, p);
    if j < |path| { StartsRun(path[j..]); } else { NoComponents(path[j..]); }
  }

  lemma NoComponents(s: string)
    requires s == ""
    ensures Components(s) == []
  {}

  /** A path that starts with another character than a slash has a component. */
  lemma StartsRun(s: string)
    requires s != "" && s[0] != '/'
    ensures Components(s) != []
  {}

  // ---------- what is left of a walk ----------

  /** What namex computes. */
  function Target(fs: seq<Node>, start: nat, all: seq<string>, parent: bool): Outcome {
    if parent then WalkParent(fs, start, all) else Walk(fs, start, all)
  }

  /** The components `c` from inode `ip` are left. */
  ghost predicate Left(fs: seq<Node>, start: nat, all: seq<string>, ip: nat, c: seq<string>, parent: bool) {
    if parent && c == [] then all == []
    else Target(fs, start, all, parent) == Target(fs, ip, c, parent)
         && (c != [] ==> all != [] && c[|c| - 1] == all[|all| - 1])
  }

  lemma LeftStart(fs: seq<Node>, start: nat, all: seq<string>, parent: bool)
    ensures Left(fs, start, all, start, all, parent)
  {
    hide Target;
  }

  /** An inode that is no directory in use ends the walk. */
  lemma LeftStop(fs: seq<Node>, start: nat, all: seq<string>, ip: nat, c: seq<string>, parent: bool)
    requires Left(fs, start, all, ip, c, parent) && c != [] && !IsDir(fs, ip)
    ensures Target(fs, start, all, parent) == if InUse(fs, ip) then NotFound else BadInode
  {
    assert Target(fs, start, all, parent) == Target(fs, ip, c, parent);
  }

  /** nameiparent stops at the last component. */
  lemma LeftLast(fs: seq<Node>, start: nat, all: seq<string>, ip: nat, c: seq<string>)
    requires Left(fs, start, all, ip, c, true) && |c| == 1 && IsDir(fs, ip)
    ensures Target(fs, start, all, true) == Found(ip) && all != [] && c[0] == all[|all| - 1]
  {
    assert Target(fs, start, all, true) == Target(fs, ip, c, true);
  }

  /** A lookup goes on, or is the result. */
  lemma LeftStep(fs: seq<Node>, start: nat, all: seq<string>, ip: nat, c: seq<string>, parent: bool)
    requires Left(fs, start, all, ip, c, parent) && c != [] && !(parent && |c| == 1)
    ensures var o := Enter(fs, ip, c[0]);
            if o.Found? then Left(fs, start, all, o.i, c[1..], parent) else Target(fs, start, all, parent) == o
  {
    var o := Enter(fs, ip, c[0]);
    assert Target(fs, start, all, parent) == Target(fs, ip, c, parent);
    assert Target(fs, ip, c, parent) == if o.Found? then Target(fs, o.i, c[1..], parent) else o;
    hide Target;
    hide Enter;
  }

  lemma LeftEnd(fs: seq<Node>, start: nat, all: seq<string>, ip: nat, parent: bool)
    requires Left(fs, start, all, ip, [], parent)
    ensures Target(fs, start, all, parent) == if parent then NotFound else Found(ip)
  {}

  /** The position behind component `elem`, of which the components `c` are left; -1 if there is none. */
  ghost predicate Cursor(path: string, p: int, elem: string, c: seq<string>) {
    if p == -1 then c == []
    else 0 < p <= |path| && c == [elem] + Components(path[p..]) && (p == |path| <==> Components(path[p..]) == [])
  }

  lemma CursorParts(path: string, p: int, elem: string, c: seq<string>)
    requires Cursor(path, p, elem, c) && p != -1
    ensures 0 < p <= |path| && c != [] && c[0] == elem && c[1..] == Components(path[p..]) && (p == |path| <==> |c| == 1)
  {
    hide Components;
  }

  lemma CursorEnd(path: string, elem: string, c: seq<string>)
    requires Cursor(path, -1, elem, c)
    ensures c == []
  {}

  method NextElem(path: string, p: nat) returns (q: int, elem: string)
    requires p <= |path|
    ensures Cursor(path, q, elem, Components(path[p..]))
  {
    hide Components;
    q, elem := Skipelem(path, p);
  }

  lemma Swap(m: multiset<nat>, a: nat, b: nat)
    requires a in m
    ensures a in m + multiset{b} && m + multiset{b} - multiset{a} == m - multiset{a} + multiset{b}
  {}

  lemma Back(m: multiset<nat>, a: nat)
    ensures m + multiset{a} - multiset{a} == m
  {}

  class Names {
    var nodes: seq<Node>
    var cwd: nat
    var refs: multiset<nat> // references held to in-memory inodes

    method Iget(i: nat)
      modifies this`refs
      ensures refs == old(refs) + multiset{i}
    {
      refs := refs + multiset{i};
    }

    method Iput(i: nat)
      requires i in refs
      modifies this`refs
      ensures refs == old(refs) - multiset{i}
    {
      refs := refs - multiset{i};
    }

    ghost function Start(path: string): nat reads this { if path != "" && path[0] == '/' then ROOTINO else cwd }

    /** From a locked directory to the inode its entry names: take that one, put this one. */
    method Descend(ip: nat, name: string) returns (r: Outcome)
      requires IsDir(nodes, ip) && ip in refs
      modifies this`refs
      ensures r == Enter(nodes, ip, name) && !r.BadInode?
      ensures r.Found? ==> refs == old(refs) - multiset{ip} + multiset{r.i}
      ensures r.NotFound? ==> refs == old(refs) - multiset{ip}
    {
      var k := Dirlookup(nodes[ip].ents, name);
      if k == -1 {
        Iput(ip);
        return NotFound;
      }
      var next := nodes[ip].ents[k].inum;
      Swap(refs, ip, next);
      Iget(next);
      Iput(ip);
      r := Found(next);
    }

    /** namex: the inode of a path, or of its parent directory with the last component; on the way
        out exactly the inode returned has been referenced once more. */
    method Namex(path: string, parent: bool) returns (r: Outcome, name: string)
      modifies this`refs
      ensures r == Target(nodes, old(Start(path)), Components(path), parent)
      ensures r.Found? ==> refs == old(refs) + multiset{r.i}
      ensures r.NotFound? ==> refs == old(refs)
      ensures r.Found? && parent ==> Components(path) != [] && name == Components(path)[|Components(path)| - 1]
    {
      hide Components;
      hide Cursor;
      hide Left;
      hide Target;
      hide Enter;
      var ip: nat := if path != "" && path[0] == '/' then ROOTINO else cwd;
      ghost var start, all := ip, Components(path);
      ghost var c := all;
      Iget(ip);
      name := "";
      LeftStart(nodes, start, all, parent);
      assert path[0..] == path;
      var p, elem := NextElem(path, 0);
      while p != -1
        invariant Cursor(path, p, elem, c) && Left(nodes, start, all, ip, c, parent)
        invariant refs == old(refs) + multiset{ip}
        decreases |c|
      {
        name := elem;
        CursorParts(path, p, elem, c);
        Back(old(refs), ip);
        if ip >= |nodes| || nodes[ip].kind != Dir {
          LeftStop(nodes, start, all, ip, c, parent);
          if ip >= |nodes| || nodes[ip].kind == Free { return BadInode, name; }
          Iput(ip);
          return NotFound, name;
        }
        if parent && p == |path| {
          LeftLast(nodes, start, all, ip, c);
          return Found(ip), name;
        }
        LeftStep(nodes, start, all, ip, c, parent);
        r := Descend(ip, name);
        if r.NotFound? { return; }
        ip := r.i;
        c := c[1..];
        p, elem := NextElem(path, p);
      }
      CursorEnd(path, elem, c);
      LeftEnd(nodes, start, all, ip, parent);
      Back(old(refs), ip);
      if parent {
        Iput(ip);
        return NotFound, name;
      }
      r := Found(ip);
    }
  }
}
