/** Directories and link counts: dirlookup, dirlink and isdirempty as loops over directory slots,
    and create, link (with its rollback) and unlink, which keep every inode's link count equal to the
    number of entries that name it. */
module Links {

  import opened Params

  datatype Kind = Free | File | Dir | Dev

  /** A directory slot; inum 0 marks it empty. */
  datatype Ent = Ent(inum: nat, name: string)

  datatype Node = Node(kind: Kind, nlink: int, ents: seq<Ent>)

  /** What is stored and compared of a name. */
  function Cut(name: string): string { if |name| <= DIRSIZ then name else name[..DIRSIZ] }

  predicate Match(e: Ent, name: string) { e.inum != 0 && e.name == Cut(name) }

  predicate IsDir(fs: seq<Node>, d: nat) { d < |fs| && fs[d].kind == Dir }

  predicate Linked(fs: seq<Node>, d: nat) { IsDir(fs, d) && fs[d].nlink > 0 }

  /** Slot `k` of linked directory `d` counts as a link to `i`. */
  predicate IsRef(fs: seq<Node>, d: nat, k: nat, i: nat) {
    Linked(fs, d) && k < |fs[d].ents| && fs[d].ents[k].inum == i && fs[d].ents[k].name != "."
  }

  ghost function Refs(fs: seq<Node>, i: nat): set<(nat, nat)> {
    set d: nat, k: nat | d < |fs| && k < |fs[d].ents| && IsRef(fs, d, k, i) :: (d, k)
  }

  /** A directory starts with "." and ".."; live names are cut, differ, and are not those two. */
  ghost predicate DirOk(fs: seq<Node>, d: nat)
    requires d < |fs|
  {
    var e := fs[d].ents;
    && |e| >= 2 && e[0] == Ent(d, ".") && e[1].name == ".." && 0 < e[1].inum < |fs| && (d == ROOTINO || e[1].inum != d)
    && (forall k :: 2 <= k < |e| && e[k].inum != 0 ==> |e[k].name| <= DIRSIZ && e[k].name != "." && e[k].name != "..")
    && (forall k, m :: 2 <= k < m < |e| && e[k].inum != 0 && e[m].inum != 0 ==> e[k].name != e[m].name)
    && (fs[d].nlink <= 0 ==> forall k :: 2 <= k < |e| ==> e[k].inum == 0)
  }

  /** Entry `k` of linked directory `d` leads to an inode in use; to a directory only from its parent,
      at the place `loc` remembers. */
  ghost predicate EntOk(fs: seq<Node>, loc: map<nat, (nat, nat)>, d: nat, k: nat)
    requires d < |fs| && k < |fs[d].ents|
  {
    var i := fs[d].ents[k].inum;
    i != 0 ==> i < |fs| && fs[i].kind != Free && (k >= 2 && fs[i].kind == Dir ==> i in loc && loc[i] == (d, k))
  }

  /** A linked directory other than the root is an entry of the directory its ".." names. */
  ghost predicate LocOk(fs: seq<Node>, loc: map<nat, (nat, nat)>, c: nat)
    requires IsDir(fs, c)
  {
    && |fs[c].ents| >= 2
    && var up := fs[c].ents[1].inum;
       if c == ROOTINO then c !in loc && up == c
       else c in loc && loc[c].0 == up && Linked(fs, up) && 2 <= loc[c].1 < |fs[up].ents|
            && fs[up].ents[loc[c].1].inum == c
  }

  ghost predicate Shape(fs: seq<Node>, loc: map<nat, (nat, nat)>) {
    && Linked(fs, ROOTINO) && fs[0].kind == Free
    && (forall d :: 0 <= d < |fs| && fs[d].kind == Dir ==> DirOk(fs, d))
    && (forall d, k :: 0 <= d < |fs| && Linked(fs, d) && 0 <= k < |fs[d].ents| ==> EntOk(fs, loc, d, k))
    && (forall c :: 0 <= c < |fs| && Linked(fs, c) ==> LocOk(fs, loc, c))
  }

  /** The link count is the number of links, plus those a link call in progress has announced. */
  ghost predicate CountOk(fs: seq<Node>, pending: multiset<nat>, i: nat)
    requires i < |fs|
  {
    fs[i].nlink == |Refs(fs, i)| + pending[i] && (fs[i].kind == Free || fs[i].kind == Dir ==> pending[i] == 0)
      && (fs[i].kind == Free ==> fs[i].nlink == 0)
  }

  ghost predicate Counts(fs: seq<Node>, pending: multiset<nat>) {
    forall i :: 0 < i < |fs| ==> CountOk(fs, pending, i)
  }

  ghost predicate Inv(fs: seq<Node>, loc: map<nat, (nat, nat)>, pending: multiset<nat>) {
    Shape(fs, loc) && Counts(fs, pending)
  }

  // ---------- slots ----------

  /** The first slot that matches, or -1. */
  function Lookup(e: seq<Ent>, name: string, k: nat): (r: int)
    requires k <= |e|
    ensures r == -1 || (k <= r < |e| && Match(e[r], name))
    ensures forall j :: k <= j < (if r == -1 then |e| else r) ==> !Match(e[j], name)
    decreases |e| - k
  {
    if k == |e| then -1 else if Match(e[k], name) then k else Lookup(e, name, k + 1)
  }

  /** The first empty slot, or one past the end. */
  function Slot(e: seq<Ent>, k: nat): (r: nat)
    requires k <= |e|
    ensures k <= r <= |e| && (r < |e| ==> e[r].inum == 0)
    ensures forall j :: k <= j < r ==> e[j].inum != 0
    decreases |e| - k
  {
    if k == |e| || e[k].inum == 0 then k else Slot(e, k + 1)
  }

  function Put(e: seq<Ent>, k: nat, x: Ent): seq<Ent>
    requires k <= |e|
  {
    if k < |e| then e[k := x] else e + [x]
  }

  function Added(e: seq<Ent>, name: string, i: nat): seq<Ent> { Put(e, Slot(e, 0), Ent(i, Cut(name))) }

  predicate EmptyDir(e: seq<Ent>) { forall k :: 2 <= k < |e| ==> e[k].inum == 0 }

  // ---------- operations ----------

  /** dirlink, for a name that is not there. */
  function WithEntry(fs: seq<Node>, d: nat, name: string, i: nat): seq<Node>
    requires d < |fs|
  {
    fs[d := fs[d].(ents := Added(fs[d].ents, name, i))]
  }

  /** create's changes once the name is known to be absent and inode `i` to be free. */
  function Created(fs: seq<Node>, d: nat, name: string, i: nat, kind: Kind): seq<Node>
    requires d < |fs| && i < |fs|
  {
    var dots := if kind == Dir then [Ent(i, "."), Ent(d, "..")] else [];
    var fs1 := fs[i := Node(kind, 1, dots)];
    var fs2 := if kind == Dir then fs1[d := fs1[d].(nlink := fs1[d].nlink + 1)] else fs1;
    WithEntry(fs2, d, name, i)
  }

  /** unlink's changes once slot `k` of `d` is known to go. */
  function Unlinked(fs: seq<Node>, d: nat, k: nat): seq<Node>
    requires d < |fs| && k < |fs[d].ents| && fs[d].ents[k].inum < |fs|
  {
    var i := fs[d].ents[k].inum;
    var fs1 := fs[d := fs[d].(ents := fs[d].ents[k := Ent(0, "")])];
    var fs2 := if fs1[i].kind == Dir then fs1[d := fs1[d].(nlink := fs1[d].nlink - 1)] else fs1;
    fs2[i := fs2[i].(nlink := fs2[i].nlink - 1)]
  }

  /** iput of an inode nobody refers to any more. */
  function Freed(fs: seq<Node>, i: nat): seq<Node>
    requires i < |fs|
  {
    fs[i := Node(Free, fs[i].nlink, [])]
  }

  // ---------- counting ----------

  lemma RefsIn(fs: seq<Node>, i: nat, d: nat, k: nat)
    ensures (d, k) in Refs(fs, i) <==> IsRef(fs, d, k, i)
  {}

  /** The same slots name `i`. */
  lemma SameRefs(fs: seq<Node>, fs': seq<Node>, i: nat)
    requires forall d: nat, k: nat :: IsRef(fs', d, k, i) <==> IsRef(fs, d, k, i)
    ensures Refs(fs', i) == Refs(fs, i)
  {
    forall x ensures x in Refs(fs', i) <==> x in Refs(fs, i) {
      RefsIn(fs, i, x.0, x.1);
      RefsIn(fs', i, x.0, x.1);
    }
  }

  /** One more slot names `i`. */
  lemma MoreRefs(fs: seq<Node>, fs': seq<Node>, i: nat, d: nat, k: nat)
    requires forall x: nat, m: nat :: IsRef(fs', x, m, i) <==> IsRef(fs, x, m, i) || (x == d && m == k)
    requires !IsRef(fs, d, k, i)
    ensures |Refs(fs', i)| == |Refs(fs, i)| + 1
  {
    forall x ensures x in Refs(fs', i) <==> x in Refs(fs, i) + {(d, k)} {
      RefsIn(fs, i, x.0, x.1);
      RefsIn(fs', i, x.0, x.1);
    }
    assert Refs(fs', i) == Refs(fs, i) + {(d, k)};
    RefsIn(fs, i, d, k);
  }

  lemma NoRefs(fs: seq<Node>, i: nat, d: nat, k: nat)
    requires |Refs(fs, i)| == 0
    ensures !IsRef(fs, d, k, i)
  {
    RefsIn(fs, i, d, k);
  }

  // ---------- create ----------

  /** An absent name is neither "." nor "..", and the entry goes behind those two. */
  lemma AbsentName(fs: seq<Node>, d: nat, name: string)
    requires d < |fs| && DirOk(fs, d) && d != 0 && Lookup(fs[d].ents, name, 0) == -1
    ensures Cut(name) != "." && Cut(name) != ".." && Slot(fs[d].ents, 0) >= 2
  {
    assert !Match(fs[d].ents[0], name) && !Match(fs[d].ents[1], name);
  }

  lemma AddedDirOk(fs: seq<Node>, fs': seq<Node>, d: nat, name: string, i: nat)
    requires d < |fs| == |fs'| && DirOk(fs, d) && d != 0 && Lookup(fs[d].ents, name, 0) == -1
    requires fs'[d].ents == Added(fs[d].ents, name, i) && fs'[d].nlink > 0
    ensures DirOk(fs', d)
  {
    AbsentName(fs, d, name);
    var e, e', s := fs[d].ents, fs'[d].ents, Slot(fs[d].ents, 0);
    forall k | 2 <= k < |e'| && k != s ensures k < |e| && e'[k] == e[k] && (e[k].inum != 0 ==> e[k].name != Cut(name)) {
      assert !Match(e[k], name);
    }
  }

  /** create's preconditions: `d` a directory without the name, `i` a free inode. */
  ghost predicate CanCreate(fs: seq<Node>, d: nat, name: string, i: nat, kind: Kind) {
    && IsDir(fs, d) && d != 0 && DirOk(fs, d) && Lookup(fs[d].ents, name, 0) == -1
    && 0 < i < |fs| && fs[i].kind == Free && kind != Free
  }

  /** The entries counted after create in a linked directory: one more for the new inode, and one
      more for the directory if the new inode is a directory. */
  lemma CreatedRef(fs: seq<Node>, d: nat, name: string, i: nat, kind: Kind, x: nat, m: nat, j: nat)
    requires CanCreate(fs, d, name, i, kind) && Linked(fs, d) && j > 0
    ensures IsRef(Created(fs, d, name, i, kind), x, m, j) <==>
              || IsRef(fs, x, m, j)
              || (j == i && x == d && m == Slot(fs[d].ents, 0))
              || (kind == Dir && j == d && x == i && m == 1)
  {
    AbsentName(fs, d, name);
    hide DirOk;
  }

  lemma CreatedCounts(fs: seq<Node>, pending: multiset<nat>, d: nat, name: string, i: nat, kind: Kind)
    requires Counts(fs, pending) && CanCreate(fs, d, name, i, kind) && Linked(fs, d)
    ensures Counts(Created(fs, d, name, i, kind), pending)
  {
    var fs', s := Created(fs, d, name, i, kind), Slot(fs[d].ents, 0);
    assert |fs'| == |fs|;
    forall j | 0 < j < |fs'| ensures CountOk(fs', pending, j) {
      assert CountOk(fs, pending, j);
      forall x: nat, m: nat ensures IsRef(fs', x, m, j) <==>
          IsRef(fs, x, m, j) || (j == i && x == d && m == s) || (kind == Dir && j == d && x == i && m == 1) {
        CreatedRef(fs, d, name, i, kind, x, m, j);
      }
      if j == i {
        NoRefs(fs, i, d, s);
        MoreRefs(fs, fs', i, d, s);
      } else if j == d && kind == Dir {
        MoreRefs(fs, fs', d, i, 1);
      } else {
        SameRefs(fs, fs', j);
      }
    }
  }

  /** A new inode `i` and an entry for it in slot `s` of `d`; nothing else changes. */
  ghost predicate Grown(fs: seq<Node>, fs': seq<Node>, d: nat, s: nat, x: Ent, kind: Kind) {
    && |fs'| == |fs| && d < |fs| && x.inum < |fs| && x.inum != d && s <= |fs[d].ents|
    && fs'[x.inum] == Node(kind, 1, if kind == Dir then [Ent(x.inum, "."), Ent(d, "..")] else [])
    && fs'[d].kind == fs[d].kind && fs'[d].nlink == fs[d].nlink + (if kind == Dir then 1 else 0)
       && fs'[d].ents == Put(fs[d].ents, s, x)
    && (forall j {:trigger fs'[j]} :: 0 <= j < |fs| && j != d && j != x.inum ==> fs'[j] == fs[j])
  }

  lemma GrownEnt(fs: seq<Node>, fs': seq<Node>, loc: map<nat, (nat, nat)>, loc': map<nat, (nat, nat)>, d: nat, s: nat,
                 e: Ent, kind: Kind, x: nat, k: nat)
    requires Grown(fs, fs', d, s, e, kind) && Linked(fs, d) && fs[e.inum].kind == Free && kind != Free && s >= 2
    requires loc' == if kind == Dir then loc[e.inum := (d, s)] else loc
    requires x < |fs'| && Linked(fs', x) && k < |fs'[x].ents|
    requires x != e.inum && k < |fs[x].ents| ==> EntOk(fs, loc, x, k)
    ensures EntOk(fs', loc', x, k)
  {}

  lemma GrownLoc(fs: seq<Node>, fs': seq<Node>, loc: map<nat, (nat, nat)>, loc': map<nat, (nat, nat)>, d: nat, s: nat,
                 e: Ent, kind: Kind, c: nat)
    requires Grown(fs, fs', d, s, e, kind) && Linked(fs, d) && fs[e.inum].kind == Free && kind != Free && s >= 2
    requires s < |fs[d].ents| ==> fs[d].ents[s].inum == 0
    requires loc' == if kind == Dir then loc[e.inum := (d, s)] else loc
    requires c < |fs'| && Linked(fs', c) && Linked(fs, ROOTINO) && c != 0 && |fs[d].ents| >= 2
    requires c != e.inum ==> LocOk(fs, loc, c)
    ensures LocOk(fs', loc', c)
  {}

  lemma GrownDir(fs: seq<Node>, fs': seq<Node>, d: nat, s: nat, e: Ent, kind: Kind, x: nat)
    requires Grown(fs, fs', d, s, e, kind) && x < |fs'| && fs'[x].kind == Dir && x != d && d != 0 && e.inum != 0
    requires x != e.inum ==> DirOk(fs, x)
    ensures DirOk(fs', x)
  {}

  lemma CreatedGrows(fs: seq<Node>, d: nat, name: string, i: nat, kind: Kind)
    requires CanCreate(fs, d, name, i, kind) && Linked(fs, d)
    ensures Grown(fs, Created(fs, d, name, i, kind), d, Slot(fs[d].ents, 0), Ent(i, Cut(name)), kind)
    ensures Slot(fs[d].ents, 0) >= 2 && DirOk(Created(fs, d, name, i, kind), d)
  {
    AbsentName(fs, d, name);
    AddedDirOk(fs, Created(fs, d, name, i, kind), d, name, i);
    hide DirOk;
  }

  lemma CreatedShape(fs: seq<Node>, loc: map<nat, (nat, nat)>, d: nat, name: string, i: nat, kind: Kind)
    requires Shape(fs, loc) && CanCreate(fs, d, name, i, kind) && Linked(fs, d)
    ensures Shape(Created(fs, d, name, i, kind), if kind == Dir then loc[i := (d, Slot(fs[d].ents, 0))] else loc)
  {
    hide Created;
    var fs', s, e := Created(fs, d, name, i, kind), Slot(fs[d].ents, 0), Ent(i, Cut(name));
    var loc' := if kind == Dir then loc[i := (d, s)] else loc;
    CreatedGrows(fs, d, name, i, kind);
    assert |fs[d].ents| >= 2;
    hide DirOk;
    forall x | 0 <= x < |fs'| && fs'[x].kind == Dir ensures DirOk(fs', x) {
      if x != d { GrownDir(fs, fs', d, s, e, kind, x); }
    }
    forall x, k | 0 <= x < |fs'| && Linked(fs', x) && 0 <= k < |fs'[x].ents| ensures EntOk(fs', loc', x, k) {
      if x != i && k < |fs[x].ents| { assert EntOk(fs, loc, x, k); }
      GrownEnt(fs, fs', loc, loc', d, s, e, kind, x, k);
    }
    forall c | 0 <= c < |fs'| && Linked(fs', c) ensures LocOk(fs', loc', c) {
      if c != i { assert LocOk(fs, loc, c); }
      GrownLoc(fs, fs', loc, loc', d, s, e, kind, c);
    }
  }

  /** In a removed directory a new entry is not counted, except that a new subdirectory makes the
      directory look linked again and its ".." count. */
  lemma CreatedBreaks(fs: seq<Node>, loc: map<nat, (nat, nat)>, pending: multiset<nat>, d: nat, name: string, i: nat,
                      kind: Kind)
    requires Inv(fs, loc, pending) && CanCreate(fs, d, name, i, kind) && !Linked(fs, d)
    ensures !Counts(Created(fs, d, name, i, kind), pending)
  {
    var fs' := Created(fs, d, name, i, kind);
    assert CountOk(fs, pending, d) && CountOk(fs, pending, i);
    AbsentName(fs, d, name);
    if kind != Dir {
      forall x: nat, m: nat ensures IsRef(fs', x, m, i) <==> IsRef(fs, x, m, i) {}
      SameRefs(fs, fs', i);
      assert !CountOk(fs', pending, i);
    } else {
      var up, s := fs[d].ents[1].inum, Slot(fs[d].ents, 0);
      assert fs[d].nlink == 0;
      if up == i {
        RefsIn(fs', i, d, 1);
        RefsIn(fs', i, d, s);
        assert {(d, 1), (d, s)} <= Refs(fs', i);
        TwoRefs(Refs(fs', i), (d, 1), (d, s));
        assert !CountOk(fs', pending, i);
      } else {
        assert CountOk(fs, pending, up);
        forall x: nat, m: nat ensures IsRef(fs', x, m, up) <==> IsRef(fs, x, m, up) || (x == d && m == 1) {}
        MoreRefs(fs, fs', up, d, 1);
        assert !CountOk(fs', pending, up);
      }
    }
  }

  lemma TwoRefs(s: set<(nat, nat)>, a: (nat, nat), b: (nat, nat))
    requires a in s && b in s && a != b
    ensures |s| >= 2
  {
    assert |s - {a}| == |s| - 1 && b in s - {a};
  }

  /** create keeps the link counts right exactly when it puts the entry into a linked directory. */
  lemma CreateIff(fs: seq<Node>, loc: map<nat, (nat, nat)>, pending: multiset<nat>, d: nat, name: string, i: nat,
                  kind: Kind)
    requires Inv(fs, loc, pending) && CanCreate(fs, d, name, i, kind)
    ensures Counts(Created(fs, d, name, i, kind), pending) <==> Linked(fs, d)
  {
    if Linked(fs, d) {
      CreatedCounts(fs, pending, d, name, i, kind);
    } else {
      CreatedBreaks(fs, loc, pending, d, name, i, kind);
    }
  }

  // ---------- link ----------

  /** link announces the new link by counting it first. */
  function Announced(fs: seq<Node>, i: nat): seq<Node>
    requires i < |fs|
  {
    fs[i := fs[i].(nlink := fs[i].nlink + 1)]
  }

  /** Its rollback. */
  function Withdrawn(fs: seq<Node>, i: nat): seq<Node>
    requires i < |fs|
  {
    fs[i := fs[i].(nlink := fs[i].nlink - 1)]
  }

  /** Counting links of a file up or down changes no entry and no directory. */
  lemma Renumbered(fs: seq<Node>, loc: map<nat, (nat, nat)>, i: nat, n: int)
    requires Shape(fs, loc) && i < |fs| && fs[i].kind != Dir
    ensures var fs' := fs[i := fs[i].(nlink := n)]; Shape(fs', loc) && forall j :: Refs(fs', j) == Refs(fs, j)
  {
    var fs' := fs[i := fs[i].(nlink := n)];
    forall j ensures Refs(fs', j) == Refs(fs, j) { SameRefs(fs, fs', j); }
    forall x | 0 <= x < |fs'| && fs'[x].kind == Dir ensures DirOk(fs', x) { assert DirOk(fs, x); }
    forall x, k | 0 <= x < |fs'| && Linked(fs', x) && 0 <= k < |fs'[x].ents|
      ensures EntOk(fs', loc, x, k)
    {
      assert EntOk(fs, loc, x, k);
    }
    forall c | 0 <= c < |fs'| && Linked(fs', c) ensures LocOk(fs', loc, c) { assert LocOk(fs, loc, c); }
  }

  lemma AnnounceKeeps(fs: seq<Node>, loc: map<nat, (nat, nat)>, pending: multiset<nat>, i: nat)
    requires Inv(fs, loc, pending) && 0 < i < |fs| && fs[i].kind != Dir && fs[i].kind != Free
    ensures Inv(Announced(fs, i), loc, pending + multiset{i})
  {
    Renumbered(fs, loc, i, fs[i].nlink + 1);
    var fs' := Announced(fs, i);
    forall j | 0 < j < |fs'| ensures CountOk(fs', pending + multiset{i}, j) { assert CountOk(fs, pending, j); }
  }

  lemma WithdrawKeeps(fs: seq<Node>, loc: map<nat, (nat, nat)>, pending: multiset<nat>, i: nat)
    requires Inv(fs, loc, pending) && 0 < i < |fs| && i in pending
    ensures Inv(Withdrawn(fs, i), loc, pending - multiset{i})
  {
    assert CountOk(fs, pending, i);
    Renumbered(fs, loc, i, fs[i].nlink - 1);
    var fs' := Withdrawn(fs, i);
    forall j | 0 < j < |fs'| ensures CountOk(fs', pending - multiset{i}, j) { assert CountOk(fs, pending, j); }
  }

  /** link's entry: `i` an announced file, the name absent from directory `d`. */
  ghost predicate CanLink(fs: seq<Node>, pending: multiset<nat>, d: nat, name: string, i: nat) {
    && IsDir(fs, d) && d != 0 && DirOk(fs, d) && Lookup(fs[d].ents, name, 0) == -1
    && 0 < i < |fs| && fs[i].kind != Dir && fs[i].kind != Free && i in pending
  }

  lemma LinkedCounts(fs: seq<Node>, pending: multiset<nat>, d: nat, name: string, i: nat)
    requires Counts(fs, pending) && CanLink(fs, pending, d, name, i) && Linked(fs, d)
    ensures Counts(WithEntry(fs, d, name, i), pending - multiset{i})
  {
    var fs', s := WithEntry(fs, d, name, i), Slot(fs[d].ents, 0);
    AbsentName(fs, d, name);
    hide DirOk;
    forall j | 0 < j < |fs'| ensures CountOk(fs', pending - multiset{i}, j) {
      assert CountOk(fs, pending, j);
      forall x: nat, m: nat ensures IsRef(fs', x, m, j) <==> IsRef(fs, x, m, j) || (j == i && x == d && m == s) {}
      if j == i { MoreRefs(fs, fs', i, d, s); } else { SameRefs(fs, fs', j); }
    }
  }

  lemma LinkedEnt(fs: seq<Node>, loc: map<nat, (nat, nat)>, d: nat, name: string, i: nat, x: nat, k: nat)
    requires d < |fs| && x < |fs| && i < |fs| && fs[i].kind != Free && fs[i].kind != Dir
    requires k < |WithEntry(fs, d, name, i)[x].ents| && (k < |fs[x].ents| ==> EntOk(fs, loc, x, k))
    ensures EntOk(WithEntry(fs, d, name, i), loc, x, k)
  {}

  lemma LinkedLoc(fs: seq<Node>, loc: map<nat, (nat, nat)>, d: nat, name: string, i: nat, c: nat)
    requires d < |fs| && 0 < c < |fs| && IsDir(fs, c) && LocOk(fs, loc, c) && Slot(fs[d].ents, 0) >= 2
    ensures LocOk(WithEntry(fs, d, name, i), loc, c)
  {}

  lemma LinkedShape(fs: seq<Node>, loc: map<nat, (nat, nat)>, pending: multiset<nat>, d: nat, name: string, i: nat)
    requires Shape(fs, loc) && CanLink(fs, pending, d, name, i) && Linked(fs, d)
    ensures Shape(WithEntry(fs, d, name, i), loc)
  {
    var fs' := WithEntry(fs, d, name, i);
    AbsentName(fs, d, name);
    AddedDirOk(fs, fs', d, name, i);
    forall x | 0 <= x < |fs'| && fs'[x].kind == Dir ensures DirOk(fs', x) {
      if x != d { assert DirOk(fs, x); }
    }
    hide DirOk;
    hide EntOk;
    hide LocOk;
    forall x, k | 0 <= x < |fs'| && Linked(fs', x) && 0 <= k < |fs'[x].ents| ensures EntOk(fs', loc, x, k) {
      LinkedEnt(fs, loc, d, name, i, x, k);
    }
    forall c | 0 <= c < |fs'| && Linked(fs', c) ensures LocOk(fs', loc, c) { LinkedLoc(fs, loc, d, name, i, c); }
  }

  /** link keeps the counts right exactly when it puts the entry into a linked directory. */
  lemma LinkIff(fs: seq<Node>, loc: map<nat, (nat, nat)>, pending: multiset<nat>, d: nat, name: string, i: nat)
    requires Inv(fs, loc, pending) && CanLink(fs, pending, d, name, i)
    ensures Counts(WithEntry(fs, d, name, i), pending - multiset{i}) <==> Linked(fs, d)
  {
    if Linked(fs, d) {
      LinkedCounts(fs, pending, d, name, i);
    } else {
      var fs' := WithEntry(fs, d, name, i);
      SameRefs(fs, fs', i);
      assert CountOk(fs, pending, i) && !CountOk(fs', pending - multiset{i}, i);
    }
  }

  // ---------- unlink ----------

  /** unlink's preconditions: slot `k` of `d` holds a name other than the dots, of a file or of an
      empty directory. */
  ghost predicate CanUnlink(fs: seq<Node>, d: nat, k: nat) {
    && IsDir(fs, d) && 2 <= k < |fs[d].ents| && 0 < fs[d].ents[k].inum < |fs|
    && (fs[fs[d].ents[k].inum].kind == Dir ==> EmptyDir(fs[fs[d].ents[k].inum].ents))
  }

  /** unlink's "nlink < 1" panic cannot happen. */
  lemma UnlinkHasLink(fs: seq<Node>, loc: map<nat, (nat, nat)>, pending: multiset<nat>, d: nat, k: nat)
    requires Inv(fs, loc, pending) && IsDir(fs, d) && 2 <= k < |fs[d].ents| && fs[d].ents[k].inum != 0
    ensures Linked(fs, d) && fs[d].ents[k].inum < |fs| && fs[fs[d].ents[k].inum].nlink >= 1
  {
    var i := fs[d].ents[k].inum;
    assert DirOk(fs, d) && EntOk(fs, loc, d, k);
    assert CountOk(fs, pending, i);
    if |Refs(fs, i)| == 0 { NoRefs(fs, i, d, k); }
  }

  /** Only its entry in its parent is a link to an empty directory. */
  lemma OnlyLink(fs: seq<Node>, loc: map<nat, (nat, nat)>, d: nat, k: nat, x: nat, m: nat)
    requires Shape(fs, loc) && CanUnlink(fs, d, k) && Linked(fs, d) && fs[fs[d].ents[k].inum].kind == Dir
    requires IsRef(fs, x, m, fs[d].ents[k].inum)
    ensures x == d && m == k
  {
    assert EntOk(fs, loc, d, k) && EntOk(fs, loc, x, m) && LocOk(fs, loc, x) && DirOk(fs, x);
    hide Shape;
  }

  lemma EmptyDirLinks(fs: seq<Node>, loc: map<nat, (nat, nat)>, pending: multiset<nat>, d: nat, k: nat)
    requires Inv(fs, loc, pending) && CanUnlink(fs, d, k) && fs[fs[d].ents[k].inum].kind == Dir
    ensures Linked(fs, d) && Refs(fs, fs[d].ents[k].inum) == {(d, k)} && fs[fs[d].ents[k].inum].nlink == 1
  {
    var i := fs[d].ents[k].inum;
    UnlinkHasLink(fs, loc, pending, d, k);
    assert CountOk(fs, pending, i);
    assert DirOk(fs, d);
    hide Shape;
    forall x: nat, m: nat ensures (x, m) in Refs(fs, i) <==> x == d && m == k {
      RefsIn(fs, i, x, m);
      if IsRef(fs, x, m, i) { OnlyLink(fs, loc, d, k, x, m); }
    }
    assert Refs(fs, i) == {(d, k)};
  }

  /** A subdirectory's ".." is a link to its parent, which has another besides. */
  lemma ParentLinks(fs: seq<Node>, loc: map<nat, (nat, nat)>, pending: multiset<nat>, d: nat, k: nat)
    requires Inv(fs, loc, pending) && Linked(fs, d) && 2 <= k < |fs[d].ents|
    requires Linked(fs, fs[d].ents[k].inum)
    ensures var i := fs[d].ents[k].inum;
            i != ROOTINO && i != d && |fs[i].ents| >= 2 && IsRef(fs, i, 1, d)
            && fs[d].nlink >= 2
  {
    var i := fs[d].ents[k].inum;
    assert EntOk(fs, loc, d, k) && LocOk(fs, loc, i) && DirOk(fs, i) && LocOk(fs, loc, d) && DirOk(fs, d)
           && CountOk(fs, pending, d);
    var own := if d == ROOTINO then (d, 1) else loc[d];
    assert d == ROOTINO || DirOk(fs, own.0);
    hide Shape;
    hide Counts;
    RefsIn(fs, d, own.0, own.1);
    RefsIn(fs, d, i, 1);
    TwoRefs(Refs(fs, d), own, (i, 1));
  }

  /** Entry `k` of `d` is gone, and `i` is one link poorer; a directory takes its ".." with it. */
  ghost predicate Pruned(fs: seq<Node>, fs': seq<Node>, d: nat, k: nat, i: nat) {
    && |fs'| == |fs| && d < |fs| && i < |fs| && i != d && k < |fs[d].ents| && fs[d].ents[k].inum == i
    && fs'[i] == fs[i].(nlink := fs[i].nlink - 1)
    && fs'[d] == fs[d].(ents := fs[d].ents[k := Ent(0, "")],
                        nlink := fs[d].nlink - (if fs[i].kind == Dir then 1 else 0))
    && (forall j {:trigger fs'[j]} :: 0 <= j < |fs| && j != d && j != i ==> fs'[j] == fs[j])
  }

  lemma PrunedRef(fs: seq<Node>, fs': seq<Node>, d: nat, k: nat, i: nat, x: nat, m: nat, j: nat)
    requires Pruned(fs, fs', d, k, i) && Linked(fs, d) && Linked(fs', d) && DirOk(fs, d) && k >= 2 && j > 0 && i > 0
    requires fs[i].kind == Dir ==> DirOk(fs, i) && EmptyDir(fs[i].ents) && fs[i].nlink == 1 && fs[i].ents[1].inum == d
    ensures IsRef(fs, x, m, j) <==>
              IsRef(fs', x, m, j) || (j == i && x == d && m == k) || (fs[i].kind == Dir && j == d && x == i && m == 1)
    ensures !IsRef(fs', d, k, i) && (fs[i].kind == Dir ==> !IsRef(fs', i, 1, d))
  {}

  lemma UnlinkedPrunes(fs: seq<Node>, loc: map<nat, (nat, nat)>, pending: multiset<nat>, d: nat, k: nat)
    requires Inv(fs, loc, pending) && CanUnlink(fs, d, k)
    ensures var i := fs[d].ents[k].inum;
            && Pruned(fs, Unlinked(fs, d, k), d, k, i) && Linked(fs, d) && Linked(Unlinked(fs, d, k), d) && i != ROOTINO
               && DirOk(fs, d)
            && (fs[i].kind == Dir ==> DirOk(fs, i) && fs[i].nlink == 1 && fs[i].ents[1].inum == d)
  {
    var i := fs[d].ents[k].inum;
    UnlinkHasLink(fs, loc, pending, d, k);
    assert DirOk(fs, d);
    if fs[i].kind == Dir {
      EmptyDirLinks(fs, loc, pending, d, k);
      ParentLinks(fs, loc, pending, d, k);
      assert DirOk(fs, i);
    }
    hide DirOk;
    hide Counts;
    assert i != d && i != ROOTINO by { assert EntOk(fs, loc, d, k); }
  }

  lemma PrunedCounts(fs: seq<Node>, fs': seq<Node>, pending: multiset<nat>, d: nat, k: nat, i: nat)
    requires Counts(fs, pending) && Pruned(fs, fs', d, k, i) && Linked(fs, d) && Linked(fs', d) && DirOk(fs, d)
             && k >= 2 && i > 0 && d > 0
    requires fs[i].kind == Dir ==> DirOk(fs, i) && EmptyDir(fs[i].ents) && fs[i].nlink == 1 && fs[i].ents[1].inum == d
    requires fs[i].kind != Free
    ensures Counts(fs', pending)
  {
    forall j | 0 < j < |fs'| ensures CountOk(fs', pending, j) {
      assert CountOk(fs, pending, j);
      forall x: nat, m: nat
        ensures IsRef(fs, x, m, j) <==>
                  IsRef(fs', x, m, j) || (j == i && x == d && m == k)
                  || (fs[i].kind == Dir && j == d && x == i && m == 1)
      {
        PrunedRef(fs, fs', d, k, i, x, m, j);
      }
      PrunedRef(fs, fs', d, k, i, d, k, j);
      if j == i {
        MoreRefs(fs', fs, i, d, k);
      } else if j == d && fs[i].kind == Dir {
        MoreRefs(fs', fs, d, i, 1);
      } else {
        SameRefs(fs', fs, j);
      }
    }
  }

  lemma PrunedDir(fs: seq<Node>, fs': seq<Node>, d: nat, k: nat, i: nat, x: nat)
    requires Pruned(fs, fs', d, k, i) && x < |fs| && DirOk(fs, x) && Linked(fs', d) && k >= 2
             && (fs[i].kind == Dir ==> EmptyDir(fs[i].ents))
    requires fs[x].kind == Dir
    ensures DirOk(fs', x)
  {}

  lemma PrunedEnt(fs: seq<Node>, fs': seq<Node>, loc: map<nat, (nat, nat)>, d: nat, k: nat, i: nat, x: nat, m: nat)
    requires Pruned(fs, fs', d, k, i) && k >= 2 && x < |fs| && m < |fs[x].ents|
    requires EntOk(fs, loc, d, k) && EntOk(fs, loc, x, m)
    ensures m < |fs'[x].ents| && EntOk(fs', loc - {i}, x, m)
  {}

  lemma PrunedLoc(fs: seq<Node>, fs': seq<Node>, loc: map<nat, (nat, nat)>, d: nat, k: nat, i: nat, c: nat)
    requires Pruned(fs, fs', d, k, i) && Linked(fs', d) && k >= 2 && i != ROOTINO && 0 < c < |fs| && Linked(fs', c)
             && Linked(fs, c) && c != i
    requires LocOk(fs, loc, c) && (fs[i].kind == Dir ==> EmptyDir(fs[i].ents))
    ensures LocOk(fs', loc - {i}, c)
  {}

  lemma PrunedShape(fs: seq<Node>, fs': seq<Node>, loc: map<nat, (nat, nat)>, d: nat, k: nat, i: nat)
    requires Shape(fs, loc) && Pruned(fs, fs', d, k, i) && Linked(fs, d) && Linked(fs', d) && k >= 2 && i > 0
             && i != ROOTINO && d > 0
    requires fs[i].kind == Dir ==> EmptyDir(fs[i].ents) && fs[i].nlink == 1
    ensures Shape(fs', loc - {i})
  {
    hide DirOk;
    hide EntOk;
    hide LocOk;
    forall x | 0 <= x < |fs'| && fs'[x].kind == Dir ensures DirOk(fs', x) { PrunedDir(fs, fs', d, k, i, x); }
    forall x, m | 0 <= x < |fs'| && Linked(fs', x) && 0 <= m < |fs'[x].ents| ensures EntOk(fs', loc - {i}, x, m) {
      PrunedEnt(fs, fs', loc, d, k, i, x, m);
    }
    forall c | 0 <= c < |fs'| && Linked(fs', c)
      ensures LocOk(fs', loc - {i}, c)
    {
      PrunedLoc(fs, fs', loc, d, k, i, c);
    }
  }

  /** unlink, of a file or of an empty directory, keeps names, tree and link counts right. */
  lemma UnlinkKeeps(fs: seq<Node>, loc: map<nat, (nat, nat)>, pending: multiset<nat>, d: nat, k: nat)
    requires Inv(fs, loc, pending) && CanUnlink(fs, d, k)
    ensures Inv(Unlinked(fs, d, k), loc - {fs[d].ents[k].inum}, pending)
  {
    var i := fs[d].ents[k].inum;
    UnlinkedPrunes(fs, loc, pending, d, k);
    assert EntOk(fs, loc, d, k);
    hide Unlinked;
    PrunedCounts(fs, Unlinked(fs, d, k), pending, d, k, i);
    PrunedShape(fs, Unlinked(fs, d, k), loc, d, k, i);
    hide Shape;
    hide Counts;
  }

  /** The first half of unlink for a file: the entry goes, the count is still to follow. */
  function Erased(fs: seq<Node>, d: nat, k: nat): seq<Node>
    requires d < |fs| && k < |fs[d].ents|
  {
    fs[d := fs[d].(ents := fs[d].ents[k := Ent(0, "")])]
  }

  /** Between the halves the inode has one link more than entries, as in a link call; the second half
      is that call's rollback. */
  lemma EraseKeeps(fs: seq<Node>, loc: map<nat, (nat, nat)>, pending: multiset<nat>, d: nat, k: nat)
    requires Inv(fs, loc, pending) && CanUnlink(fs, d, k) && fs[fs[d].ents[k].inum].kind != Dir
    ensures var i := fs[d].ents[k].inum;
            && Inv(Erased(fs, d, k), loc - {i}, pending + multiset{i})
            && Withdrawn(Erased(fs, d, k), i) == Unlinked(fs, d, k)
  {
    var i := fs[d].ents[k].inum;
    UnlinkHasLink(fs, loc, pending, d, k);
    assert fs[i].kind != Free by { assert EntOk(fs, loc, d, k); }
    UnlinkKeeps(fs, loc, pending, d, k);
    hide Inv;
    AnnounceKeeps(Unlinked(fs, d, k), loc - {i}, pending, i);
    assert Announced(Unlinked(fs, d, k), i) == Erased(fs, d, k);
  }

  // ---------- iput ----------

  /** No entry of a linked directory leads to an inode without links. */
  lemma NoDangling(fs: seq<Node>, loc: map<nat, (nat, nat)>, pending: multiset<nat>, d: nat, k: nat)
    requires Inv(fs, loc, pending) && d < |fs| && Linked(fs, d) && k < |fs[d].ents| && fs[d].ents[k].inum != 0
    ensures var i := fs[d].ents[k].inum; i < |fs| && fs[i].kind != Free && fs[i].nlink > 0
  {
    var i := fs[d].ents[k].inum;
    assert EntOk(fs, loc, d, k) && DirOk(fs, d);
    if fs[d].ents[k].name == "." {
      assert k == 0;
    } else {
      assert CountOk(fs, pending, i);
      if |Refs(fs, i)| == 0 { NoRefs(fs, i, d, k); }
    }
  }

  /** Freeing an inode whose last link is gone. */
  lemma FreeKeeps(fs: seq<Node>, loc: map<nat, (nat, nat)>, pending: multiset<nat>, i: nat)
    requires Inv(fs, loc, pending) && 0 < i < |fs| && fs[i].nlink == 0
    ensures Inv(Freed(fs, i), loc, pending)
  {
    var fs' := Freed(fs, i);
    assert CountOk(fs, pending, i);
    forall x, k | 0 <= x < |fs'| && Linked(fs', x) && 0 <= k < |fs'[x].ents| ensures EntOk(fs', loc, x, k) {
      assert EntOk(fs, loc, x, k);
      if fs[x].ents[k].inum == i { NoDangling(fs, loc, pending, x, k); }
    }
    forall x | 0 <= x < |fs'| && fs'[x].kind == Dir ensures DirOk(fs', x) { assert DirOk(fs, x); }
    hide DirOk;
    forall c | 0 <= c < |fs'| && Linked(fs', c) ensures LocOk(fs', loc, c) { assert LocOk(fs, loc, c); }
    forall j | 0 < j < |fs'| ensures CountOk(fs', pending, j) {
      assert CountOk(fs, pending, j);
      SameRefs(fs, fs', j);
    }
  }

  /** The tree mkfs starts from: the root directory alone. */
  lemma InitTree(fs: seq<Node>)
    requires |fs| > ROOTINO && fs[ROOTINO] == Node(Dir, 1, [Ent(ROOTINO, "."), Ent(ROOTINO, "..")])
    requires forall i :: 0 <= i < |fs| && i != ROOTINO ==> fs[i] == Node(Free, 0, [])
    ensures Inv(fs, map[], multiset{})
  {
    forall i | 0 < i < |fs| ensures CountOk(fs, multiset{}, i) {
      var s: set<(nat, nat)> := if i == ROOTINO then {(ROOTINO, 1)} else {};
      forall x ensures x in Refs(fs, i) <==> x in s { RefsIn(fs, i, x.0, x.1); }
      assert Refs(fs, i) == s;
    }
  }

  // ---------- the calls ----------

  /** dirlookup's loop: the slot of a name in a directory, or -1. */
  method Dirlookup(e: seq<Ent>, name: string) returns (r: int)
    ensures r == Lookup(e, name, 0)
  {
    var k := 0;
    while k < |e|
      invariant k <= |e| && Lookup(e, name, 0) == Lookup(e, name, k)
    {
      if e[k].inum != 0 && Cut(name) == e[k].name { return k; }
      k := k + 1;
    }
    r := -1;
  }

  datatype Result = Inode(i: nat) | Null | Panic

  lemma DirFacts(fs: seq<Node>, loc: map<nat, (nat, nat)>, pending: multiset<nat>, d: nat)
    requires Inv(fs, loc, pending) && IsDir(fs, d)
    ensures d != 0 && DirOk(fs, d) && |fs[d].ents| >= 2 && fs[d].ents[0].name == "." && fs[d].ents[1].name == ".."
  {}

  lemma PendingFile(fs: seq<Node>, loc: map<nat, (nat, nat)>, pending: multiset<nat>, i: nat)
    requires Inv(fs, loc, pending) && 0 < i < |fs| && i in pending
    ensures fs[i].kind != Dir && fs[i].kind != Free
  {
    assert CountOk(fs, pending, i);
  }

  /** Where create's new directory is entered. */
  ghost function CreatedLoc(fs: seq<Node>, loc: map<nat, (nat, nat)>, d: nat, i: nat, kind: Kind): map<nat, (nat, nat)>
    requires d < |fs|
  {
    if kind == Dir then loc[i := (d, Slot(fs[d].ents, 0))] else loc
  }

  lemma CreateKeeps(fs: seq<Node>, loc: map<nat, (nat, nat)>, pending: multiset<nat>, d: nat, name: string, i: nat,
                    kind: Kind)
    requires Inv(fs, loc, pending) && CanCreate(fs, d, name, i, kind) && Linked(fs, d)
    ensures Inv(Created(fs, d, name, i, kind), CreatedLoc(fs, loc, d, i, kind), pending)
  {
    hide Shape;
    hide Counts;
    CreatedShape(fs, loc, d, name, i, kind);
    CreatedCounts(fs, pending, d, name, i, kind);
  }

  lemma LinkKeeps(fs: seq<Node>, loc: map<nat, (nat, nat)>, pending: multiset<nat>, d: nat, name: string, i: nat)
    requires Inv(fs, loc, pending) && CanLink(fs, pending, d, name, i) && Linked(fs, d)
    ensures Inv(WithEntry(fs, d, name, i), loc, pending - multiset{i})
  {
    hide Shape;
    hide Counts;
    LinkedShape(fs, loc, pending, d, name, i);
    LinkedCounts(fs, pending, d, name, i);
  }

  // ---------- runs ----------

  /** The atomic parts of the calls; different calls may come between the two halves of a link, and
      between those of an unlink of a file, EraseOp and WithdrawOp. */
  datatype Op =
    | CreateOp(d: nat, name: string, i: nat, kind: Kind)
    | AnnounceOp(i: nat)
    | EnterOp(i: nat, d: nat, name: string)
    | WithdrawOp(i: nat)
    | UnlinkOp(d: nat, k: nat)
    | EraseOp(d: nat, k: nat)
    | FreeOp(i: nat)

  datatype World = World(fs: seq<Node>, pending: multiset<nat>)

  /** The guards in the code, and that entries go into linked directories only. */
  ghost predicate Allowed(w: World, op: Op) {
    match op
    case CreateOp(d, name, i, kind) => CanCreate(w.fs, d, name, i, kind) && Linked(w.fs, d)
    case AnnounceOp(i) => 0 < i < |w.fs| && w.fs[i].kind != Dir && w.fs[i].kind != Free
    case EnterOp(i, d, name) => CanLink(w.fs, w.pending, d, name, i) && Linked(w.fs, d)
    case WithdrawOp(i) => 0 < i < |w.fs| && i in w.pending
    case UnlinkOp(d, k) => CanUnlink(w.fs, d, k)
    case EraseOp(d, k) => CanUnlink(w.fs, d, k) && w.fs[w.fs[d].ents[k].inum].kind != Dir
    case FreeOp(i) => 0 < i < |w.fs| && w.fs[i].nlink == 0
  }

  ghost function Apply(w: World, op: Op): World
    requires Allowed(w, op)
  {
    match op
    case CreateOp(d, name, i, kind) => w.(fs := Created(w.fs, d, name, i, kind))
    case AnnounceOp(i) => World(Announced(w.fs, i), w.pending + multiset{i})
    case EnterOp(i, d, name) => World(WithEntry(w.fs, d, name, i), w.pending - multiset{i})
    case WithdrawOp(i) => World(Withdrawn(w.fs, i), w.pending - multiset{i})
    case UnlinkOp(d, k) => w.(fs := Unlinked(w.fs, d, k))
    case EraseOp(d, k) => World(Erased(w.fs, d, k), w.pending + multiset{w.fs[d].ents[k].inum})
    case FreeOp(i) => w.(fs := Freed(w.fs, i))
  }

  ghost predicate Good(w: World) { exists loc :: Inv(w.fs, loc, w.pending) }

  lemma ApplyKeeps(w: World, op: Op)
    requires Good(w) && Allowed(w, op)
    ensures Good(Apply(w, op))
  {
    var loc :| Inv(w.fs, loc, w.pending);
    hide Inv;
    var loc' := loc;
    match op {
      case CreateOp(d, name, i, kind) =>
        CreateKeeps(w.fs, loc, w.pending, d, name, i, kind);
        loc' := CreatedLoc(w.fs, loc, d, i, kind);
      case AnnounceOp(i) => AnnounceKeeps(w.fs, loc, w.pending, i);
      case EnterOp(i, d, name) => LinkKeeps(w.fs, loc, w.pending, d, name, i);
      case WithdrawOp(i) => WithdrawKeeps(w.fs, loc, w.pending, i);
      case UnlinkOp(d, k) =>
        UnlinkKeeps(w.fs, loc, w.pending, d, k);
        loc' := loc - {w.fs[d].ents[k].inum};
      case EraseOp(d, k) =>
        EraseKeeps(w.fs, loc, w.pending, d, k);
        loc' := loc - {w.fs[d].ents[k].inum};
      case FreeOp(i) => FreeKeeps(w.fs, loc, w.pending, i);
    }
    assert Inv(Apply(w, op).fs, loc', Apply(w, op).pending);
  }

  ghost predicate Step(w: World, op: Op, w': World) { Allowed(w, op) && w' == Apply(w, op) }

  lemma {:induction false} Reached(ws: seq<World>, ops: seq<Op>, t: nat)
    requires |ws| == |ops| + 1 && Good(ws[0]) && (forall u :: 0 <= u < |ops| ==> Step(ws[u], ops[u], ws[u + 1]))
             && t < |ws|
    ensures Good(ws[t])
  {
    if t > 0 {
      Reached(ws, ops, t - 1);
      assert Step(ws[t - 1], ops[t - 1], ws[t]);
      ApplyKeeps(ws[t - 1], ops[t - 1]);
    }
  }

  /** After any run of calls from a good tree, such as the one mkfs starts from, the link count of
      every inode is the number of its entries in linked directories plus the links announced, no
      entry of a linked directory dangles, and its live names differ. */
  lemma LinkCounts(ws: seq<World>, ops: seq<Op>, t: nat)
    requires |ws| == |ops| + 1 && Good(ws[0]) && (forall u :: 0 <= u < |ops| ==> Step(ws[u], ops[u], ws[u + 1]))
             && t < |ws|
    ensures var w := ws[t];
            && (forall i :: 0 < i < |w.fs| ==> w.fs[i].nlink == |Refs(w.fs, i)| + w.pending[i])
            && (forall d, k :: 0 <= d < |w.fs| && Linked(w.fs, d) && 0 <= k < |w.fs[d].ents|
                               && w.fs[d].ents[k].inum != 0 ==>
                  w.fs[d].ents[k].inum < |w.fs| && w.fs[w.fs[d].ents[k].inum].kind != Free)
            && (forall d, k, m :: 0 <= d < |w.fs| && Linked(w.fs, d) && 0 <= k < m < |w.fs[d].ents|
                                  && w.fs[d].ents[k].inum != 0 && w.fs[d].ents[m].inum != 0 ==>
                  w.fs[d].ents[k].name != w.fs[d].ents[m].name)
  {
    Reached(ws, ops, t);
    var loc :| Inv(ws[t].fs, loc, ws[t].pending);
    GoodCounts(ws[t].fs, loc, ws[t].pending);
  }

  lemma GoodCounts(fs: seq<Node>, loc: map<nat, (nat, nat)>, pending: multiset<nat>)
    requires Inv(fs, loc, pending)
    ensures forall i :: 0 < i < |fs| ==> fs[i].nlink == |Refs(fs, i)| + pending[i]
    ensures forall d, k :: 0 <= d < |fs| && Linked(fs, d) && 0 <= k < |fs[d].ents| && fs[d].ents[k].inum != 0 ==>
              fs[d].ents[k].inum < |fs| && fs[fs[d].ents[k].inum].kind != Free
    ensures forall d, k, m :: 0 <= d < |fs| && Linked(fs, d) && 0 <= k < m < |fs[d].ents| && fs[d].ents[k].inum != 0
                              && fs[d].ents[m].inum != 0 ==>
              fs[d].ents[k].name != fs[d].ents[m].name
  {
    hide Inv;
    forall i | 0 < i < |fs| ensures fs[i].nlink == |Refs(fs, i)| + pending[i] { GoodCount(fs, loc, pending, i); }
    forall d, k | 0 <= d < |fs| && Linked(fs, d) && 0 <= k < |fs[d].ents| && fs[d].ents[k].inum != 0
      ensures fs[d].ents[k].inum < |fs| && fs[fs[d].ents[k].inum].kind != Free
    {
      GoodEntry(fs, loc, pending, d, k);
    }
    forall d, k, m | 0 <= d < |fs| && Linked(fs, d) && 0 <= k < m < |fs[d].ents| && fs[d].ents[k].inum != 0
                     && fs[d].ents[m].inum != 0
      ensures fs[d].ents[k].name != fs[d].ents[m].name
    {
      GoodNames(fs, loc, pending, d, k, m);
    }
  }

  lemma GoodCount(fs: seq<Node>, loc: map<nat, (nat, nat)>, pending: multiset<nat>, i: nat)
    requires Inv(fs, loc, pending) && 0 < i < |fs|
    ensures fs[i].nlink == |Refs(fs, i)| + pending[i]
  {
    hide Shape;
    assert CountOk(fs, pending, i);
  }

  lemma GoodEntry(fs: seq<Node>, loc: map<nat, (nat, nat)>, pending: multiset<nat>, d: nat, k: nat)
    requires Inv(fs, loc, pending) && Linked(fs, d) && k < |fs[d].ents| && fs[d].ents[k].inum != 0
    ensures fs[d].ents[k].inum < |fs| && fs[fs[d].ents[k].inum].kind != Free
  {
    hide Counts;
    hide DirOk;
    hide LocOk;
    assert EntOk(fs, loc, d, k);
  }

  lemma GoodNames(fs: seq<Node>, loc: map<nat, (nat, nat)>, pending: multiset<nat>, d: nat, k: nat, m: nat)
    requires Inv(fs, loc, pending) && Linked(fs, d) && k < m < |fs[d].ents|
    requires fs[d].ents[k].inum != 0 && fs[d].ents[m].inum != 0
    ensures fs[d].ents[k].name != fs[d].ents[m].name
  {
    hide Counts;
    hide EntOk;
    hide LocOk;
    assert DirOk(fs, d);
  }

  // ---------- how the counts go wrong ----------

  /** The tree of InitTree with `n` inodes. */
  function RootOnly(n: nat): seq<Node>
    requires n > ROOTINO
  {
    seq(n, i => if i == ROOTINO then Node(Dir, 1, [Ent(ROOTINO, "."), Ent(ROOTINO, "..")]) else Node(Free, 0, []))
  }

  /** A run of calls from the root alone. */
  ghost predicate Run(ws: seq<World>, ops: seq<Op>) {
    && |ws| == |ops| + 1 && |ws[0].fs| > ROOTINO && ws[0] == World(RootOnly(|ws[0].fs|), multiset{})
    && forall u :: 0 <= u < |ops| ==> Step(ws[u], ops[u], ws[u + 1])
  }

  lemma RunGood(ws: seq<World>, ops: seq<Op>)
    requires Run(ws, ops)
    ensures Good(ws[|ops|])
  {
    InitTree(ws[0].fs);
    assert Good(ws[0]);
    Reached(ws, ops, |ops|);
  }

  /** Four inodes: the root with entries behind its dots, directory "a", and one more. */
  function Small(n: int, ents: seq<Ent>, links: int, last: Node): seq<Node> {
    [Node(Free, 0, []), Node(Dir, n, [Ent(1, "."), Ent(1, "..")] + ents), Node(Dir, links, [Ent(2, "."), Ent(1, "..")]),
     last]
  }

  /** mkdir a. */
  lemma MakeA()
    ensures Step(World(RootOnly(4), multiset{}), CreateOp(1, "a", 2, Dir),
                 World(Small(2, [Ent(2, "a")], 1, Node(Free, 0, [])), multiset{}))
  {
    var fs := RootOnly(4);
    assert CanCreate(fs, 1, "a", 2, Dir);
    assert Slot(fs[1].ents, 0) == 2;
    assert Created(fs, 1, "a", 2, Dir) == Small(2, [Ent(2, "a")], 1, Node(Free, 0, []));
  }

  /** rmdir a. */
  lemma RemoveA(rest: seq<Ent>, last: Node, pending: multiset<nat>)
    ensures Step(World(Small(2, [Ent(2, "a")] + rest, 1, last), pending), UnlinkOp(1, 2),
                 World(Small(1, [Ent(0, "")] + rest, 0, last), pending))
  {
    var fs := Small(2, [Ent(2, "a")] + rest, 1, last);
    assert CanUnlink(fs, 1, 2);
    assert fs[1].ents[2 := Ent(0, "")] == [Ent(1, "."), Ent(1, "..")] + ([Ent(0, "")] + rest);
    assert Unlinked(fs, 1, 2) == Small(1, [Ent(0, "")] + rest, 0, last);
  }

  /** The removed directory is there, not linked, and has no "b". */
  lemma EmptyA(ents: seq<Ent>, last: Node)
    ensures var fs := Small(1, ents, 0, last);
            && |fs| == 4 && fs[3] == last && IsDir(fs, 2) && !Linked(fs, 2) && DirOk(fs, 2)
            && Lookup(fs[2].ents, "b", 0) == -1
            && (last.kind == Free ==> CanCreate(fs, 2, "b", 3, File))
  {}

  lemma CreateWrong(w: World, d: nat, name: string, i: nat, kind: Kind)
    requires Good(w) && CanCreate(w.fs, d, name, i, kind) && !Linked(w.fs, d)
    ensures !Counts(Created(w.fs, d, name, i, kind), w.pending)
  {
    var loc :| Inv(w.fs, loc, w.pending);
    CreateIff(w.fs, loc, w.pending, d, name, i, kind);
  }

  lemma LinkWrong(w: World, d: nat, name: string, i: nat)
    requires Good(w) && CanLink(w.fs, w.pending, d, name, i) && !Linked(w.fs, d)
    ensures !Counts(WithEntry(w.fs, d, name, i), w.pending - multiset{i})
  {
    var loc :| Inv(w.fs, loc, w.pending);
    LinkIff(w.fs, loc, w.pending, d, name, i);
  }

  /** mkdir a, and rmdir a while some process still has it as its current directory: a file made
      there has a link count of one and no entry that counts. */
  lemma CreateInRemoved() returns (ws: seq<World>, ops: seq<Op>)
    ensures Run(ws, ops) && ops == [CreateOp(1, "a", 2, Dir), UnlinkOp(1, 2)]
    ensures var fs := ws[2].fs;
            && IsDir(fs, 2) && !Linked(fs, 2) && CanCreate(fs, 2, "b", 3, File)
            && !Counts(Created(fs, 2, "b", 3, File), ws[2].pending)
  {
    var free := Node(Free, 0, []);
    var w2 := World(Small(1, [Ent(0, "")], 0, free), multiset{});
    ops := [CreateOp(1, "a", 2, Dir), UnlinkOp(1, 2)];
    ws := [World(RootOnly(4), multiset{}), World(Small(2, [Ent(2, "a")], 1, free), multiset{}), w2];
    MakeA();
    RemoveA([], free, multiset{});
    assert [Ent(2, "a")] + [] == [Ent(2, "a")] && [Ent(0, "")] + [] == [Ent(0, "")];
    EmptyA([Ent(0, "")], free);
    hide Step;
    hide Small;
    hide Good;
    hide Counts;
    hide Created;
    hide CanCreate;
    RunGood(ws, ops);
    CreateWrong(w2, 2, "b", 3, File);
  }

  /** A file next to it, and the first half of a link call for it. */
  lemma MakeF()
    ensures var w1 := World(Small(2, [Ent(2, "a")], 1, Node(Free, 0, [])), multiset{});
            var w2 := World(Small(2, [Ent(2, "a"), Ent(3, "f")], 1, Node(File, 1, [])), multiset{});
            var w3 := World(Small(2, [Ent(2, "a"), Ent(3, "f")], 1, Node(File, 2, [])), multiset{3});
            Step(w1, CreateOp(1, "f", 3, File), w2) && Step(w2, AnnounceOp(3), w3)
  {
    var fs := Small(2, [Ent(2, "a")], 1, Node(Free, 0, []));
    assert CanCreate(fs, 1, "f", 3, File);
    assert Slot(fs[1].ents, 0) == 3;
    assert Added(fs[1].ents, "f", 3) == [Ent(1, "."), Ent(1, "..")] + [Ent(2, "a"), Ent(3, "f")];
    hide Added;
    assert Created(fs, 1, "f", 3, File) == Small(2, [Ent(2, "a"), Ent(3, "f")], 1, Node(File, 1, []));
  }

  /** The same with link: the directory is removed between the two halves of the call. */
  lemma LinkIntoRemoved() returns (ws: seq<World>, ops: seq<Op>)
    ensures Run(ws, ops)
    ensures ops == [CreateOp(1, "a", 2, Dir), CreateOp(1, "f", 3, File), AnnounceOp(3), UnlinkOp(1, 2)]
    ensures var w := ws[4];
            && IsDir(w.fs, 2) && !Linked(w.fs, 2) && CanLink(w.fs, w.pending, 2, "b", 3)
            && !Counts(WithEntry(w.fs, 2, "b", 3), w.pending - multiset{3})
  {
    var a, f, none := Ent(2, "a"), Ent(3, "f"), Ent(0, "");
    var w4 := World(Small(1, [none, f], 0, Node(File, 2, [])), multiset{3});
    ops := [CreateOp(1, "a", 2, Dir), CreateOp(1, "f", 3, File), AnnounceOp(3), UnlinkOp(1, 2)];
    ws := [World(RootOnly(4), multiset{}),
           World(Small(2, [a], 1, Node(Free, 0, [])), multiset{}),
           World(Small(2, [a, f], 1, Node(File, 1, [])), multiset{}),
           World(Small(2, [a, f], 1, Node(File, 2, [])), multiset{3}), w4];
    MakeA();
    MakeF();
    RemoveA([f], Node(File, 2, []), multiset{3});
    assert [a] + [f] == [a, f] && [none] + [f] == [none, f];
    EmptyA([none, f], Node(File, 2, []));
    hide Step;
    hide Small;
    hide Good;
    hide Counts;
    hide WithEntry;
    RunGood(ws, ops);
    LinkWrong(w4, 2, "b", 3);
  }

  class Tree {
    var nodes: seq<Node>
    ghost var loc: map<nat, (nat, nat)>
    ghost var pending: multiset<nat>

    ghost predicate Valid() reads this { Inv(nodes, loc, pending) }

    /** Write a new entry into the first empty slot, unless the name is present. */
    method Dirlink(d: nat, name: string, i: nat) returns (ok: bool)
      requires IsDir(nodes, d)
      modifies this`nodes
      ensures ok <==> Lookup(old(nodes[d].ents), name, 0) == -1
      ensures nodes == if ok then WithEntry(old(nodes), d, name, i) else old(nodes)
    {
      var r := Dirlookup(nodes[d].ents, name);
      if r != -1 { return false; }
      var e := nodes[d].ents;
      var k := 0;
      while k < |e| && e[k].inum != 0
        invariant k <= |e| && Slot(e, 0) == Slot(e, k)
      {
        k := k + 1;
      }
      nodes := nodes[d := nodes[d].(ents := Put(e, k, Ent(i, Cut(name))))];
      ok := true;
    }

    /** Nothing but "." and ".."? */
    method Isdirempty(d: nat) returns (empty: bool)
      requires IsDir(nodes, d)
      ensures empty <==> EmptyDir(nodes[d].ents)
    {
      var k := 2;
      while k < |nodes[d].ents|
        invariant 2 <= k && forall j :: 2 <= j < k && j < |nodes[d].ents| ==> nodes[d].ents[j].inum == 0
      {
        if nodes[d].ents[k].inum != 0 { return false; }
        k := k + 1;
      }
      empty := true;
    }

    /** The first free inode, or 0. */
    method Ialloc() returns (i: nat)
      ensures i == 0 || (i < |nodes| && nodes[i].kind == Free)
      ensures forall j :: 0 < j < |nodes| && (i == 0 || j < i) ==> nodes[j].kind != Free
    {
      i := 1;
      while i < |nodes|
        invariant 1 <= i && forall j :: 0 < j < |nodes| && j < i ==> nodes[j].kind != Free
      {
        if nodes[i].kind == Free { return; }
        i := i + 1;
      }
      i := 0;
    }

    /** create, given the parent directory that the path led to. */
    method Create(d: nat, name: string, kind: Kind) returns (r: Result)
      requires Valid() && IsDir(nodes, d) && kind != Free
      modifies this
      ensures var k := Lookup(old(nodes[d].ents), name, 0);
              if k != -1 then
                nodes == old(nodes)
                && var i := nodes[d].ents[k].inum;
                   r == if i < |nodes| && kind == File && nodes[i].kind == File then Inode(i) else Null
              else if r.Inode? then
                0 < r.i < |old(nodes)| && old(nodes)[r.i].kind == Free
                  && nodes == Created(old(nodes), d, name, r.i, kind)
              else
                r == Panic && nodes == old(nodes) && forall j :: 0 < j < |nodes| ==> nodes[j].kind != Free
      ensures pending == old(pending) && (Linked(old(nodes), d) ==> Valid())
    {
      hide Inv;
      DirFacts(nodes, loc, pending, d);
      hide DirOk;
      var k := Dirlookup(nodes[d].ents, name);
      if k != -1 {
        var i := nodes[d].ents[k].inum;
        if i < |nodes| && kind == File && nodes[i].kind == File { return Inode(i); }
        return Null;
      }
      var i := Ialloc();
      if i == 0 { return Panic; }
      if Linked(nodes, d) {
        CreateKeeps(nodes, loc, pending, d, name, i, kind);
        loc := CreatedLoc(nodes, loc, d, i, kind);
      }
      Fill(d, name, i, kind);
      r := Inode(i);
    }

    /** The new inode, its dots, and its entry. */
    method Fill(d: nat, name: string, i: nat, kind: Kind)
      requires IsDir(nodes, d) && i < |nodes| && nodes[i].kind == Free && Lookup(nodes[d].ents, name, 0) == -1
      modifies this`nodes
      ensures nodes == Created(old(nodes), d, name, i, kind)
    {
      nodes := nodes[i := Node(kind, 1, if kind == Dir then [Ent(i, "."), Ent(d, "..")] else [])];
      if kind == Dir { nodes := nodes[d := nodes[d].(nlink := nodes[d].nlink + 1)]; }
      var ok := Dirlink(d, name, i);
    }

    /** link's first half: count the link. */
    method LinkBegin(i: nat) returns (ok: bool)
      requires Valid() && 0 < i < |nodes| && nodes[i].kind != Free
      modifies this
      ensures Valid() && (ok <==> old(nodes[i].kind) != Dir)
      ensures if ok then nodes == Announced(old(nodes), i)
              && pending == old(pending) + multiset{i} else nodes == old(nodes) && pending == old(pending)
    {
      if nodes[i].kind == Dir { return false; }
      AnnounceKeeps(nodes, loc, pending, i);
      nodes := nodes[i := nodes[i].(nlink := nodes[i].nlink + 1)];
      pending := pending + multiset{i};
      ok := true;
    }

    /** link's second half: write the entry, or take the count back. */
    method LinkEnd(i: nat, d: nat, name: string) returns (ok: bool)
      requires Valid() && 0 < i < |nodes| && i in pending && IsDir(nodes, d)
      modifies this
      ensures ok <==> Lookup(old(nodes[d].ents), name, 0) == -1
      ensures nodes == if ok then WithEntry(old(nodes), d, name, i) else Withdrawn(old(nodes), i)
      ensures pending == old(pending) - multiset{i} && (!ok || Linked(old(nodes), d) ==> Valid())
    {
      hide Inv;
      DirFacts(nodes, loc, pending, d);
      PendingFile(nodes, loc, pending, i);
      hide DirOk;
      ghost var fs := nodes;
      ok := Dirlink(d, name, i);
      if !ok {
        WithdrawKeeps(nodes, loc, pending, i);
        nodes := nodes[i := nodes[i].(nlink := nodes[i].nlink - 1)];
      } else if Linked(fs, d) {
        LinkKeeps(fs, loc, pending, d, name, i);
      }
      pending := pending - multiset{i};
    }

    /** unlink, given the parent directory that the path led to. */
    method Unlink(d: nat, name: string) returns (ok: bool)
      requires Valid() && IsDir(nodes, d)
      modifies this
      ensures Valid() && pending == old(pending)
      ensures var k := Lookup(old(nodes[d].ents), name, 0);
              && (ok <==> Cut(name) != "." && Cut(name) != ".." && k != -1 && CanUnlink(old(nodes), d, k))
              && nodes == if ok then Unlinked(old(nodes), d, k) else old(nodes)
    {
      hide Inv;
      DirFacts(nodes, loc, pending, d);
      hide DirOk;
      if Cut(name) == "." || Cut(name) == ".." { return false; }
      var k := Dirlookup(nodes[d].ents, name);
      if k == -1 { return false; }
      var i := nodes[d].ents[k].inum;
      UnlinkHasLink(nodes, loc, pending, d, k);
      if nodes[i].kind == Dir {
        var empty := Isdirempty(i);
        if !empty { return false; }
      }
      UnlinkKeeps(nodes, loc, pending, d, k);
      loc := loc - {i};
      Remove(d, k);
      ok := true;
    }

    /** The slot is cleared, and the counts go down. */
    method Remove(d: nat, k: nat)
      requires d < |nodes| && k < |nodes[d].ents| && nodes[d].ents[k].inum < |nodes|
      modifies this`nodes
      ensures nodes == Unlinked(old(nodes), d, k)
    {
      var i := nodes[d].ents[k].inum;
      nodes := nodes[d := nodes[d].(ents := nodes[d].ents[k := Ent(0, "")])];
      if nodes[i].kind == Dir { nodes := nodes[d := nodes[d].(nlink := nodes[d].nlink - 1)]; }
      nodes := nodes[i := nodes[i].(nlink := nodes[i].nlink - 1)];
    }
  }
}
