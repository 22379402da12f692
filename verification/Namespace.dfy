/** The directory graph as a tree of names, and what the namespace operations of src/fs.c do to it. */
module Namespace {
  import opened Params
  import opened Dirent

  /** A directory file without its first two records, which are "." and "..". */
  datatype DirNode = DirNode(parent: iptr, children: seq<Entry>)

  type Nodes = map<iptr, DirNode>

  /** Directory d has the non-dot entry e. */
  predicate Lists(nodes: Nodes, d: iptr, e: Entry) {
    d in nodes && e in nodes[d].children
  }

  predicate Holds(nodes: Nodes, d: iptr, i: iptr) {
    d in nodes && exists e :: e in nodes[d].children && e.inode == i
  }

  /** One entry of directory d is in order: `home` knows where each inode is listed. */
  predicate EntryOk(nodes: Nodes, files: set<iptr>, home: map<iptr, iptr>, d: iptr, e: Entry) {
    && e.name != DOT && e.name != DOTDOT && ValidName(e.name)
    && e.inode in home && home[e.inode] == d
    && if e.inode in nodes then e.kind == ITYPE_DIR else e.kind == ITYPE_FILE && e.inode in files
  }

  predicate DirOk(nodes: Nodes, files: set<iptr>, home: map<iptr, iptr>, d: iptr)
    requires d in nodes
  {
    && UniqueNames(nodes[d].children)
    && UniqueInodes(nodes[d].children)
    && forall e :: e in nodes[d].children ==> EntryOk(nodes, files, home, d, e)
  }

  /** `home` names the directory that lists an inode, `depth` counts the ".." steps to the root. */
  predicate HomeOk(nodes: Nodes, home: map<iptr, iptr>, depth: map<iptr, nat>, i: iptr)
    requires i in home
  {
    && home[i] in nodes && Holds(nodes, home[i], i)
    && (i in nodes ==> i in depth && home[i] in depth && nodes[i].parent == home[i] && depth[i] == depth[home[i]] + 1)
  }

  predicate TreeBy(nodes: Nodes, files: set<iptr>, home: map<iptr, iptr>, depth: map<iptr, nat>) {
    && INODE_ROOTDIR in nodes && nodes[INODE_ROOTDIR].parent == INODE_ROOTDIR
    && INODE_ROOTDIR in depth && depth[INODE_ROOTDIR] == 0
    && nodes.Keys !! files
    && home.Keys == nodes.Keys + files - {INODE_ROOTDIR}
    && (forall d :: d in nodes ==> DirOk(nodes, files, home, d))
    && (forall i :: i in home ==> HomeOk(nodes, home, depth, i))
  }

  /** depth[d] steps along ".." lead from d to the root. */
  predicate Ranked(nodes: Nodes, depth: map<iptr, nat>) {
    && INODE_ROOTDIR in nodes && nodes[INODE_ROOTDIR].parent == INODE_ROOTDIR
    && forall d :: d in nodes ==>
         d in depth && nodes[d].parent in nodes && nodes[d].parent in depth
         && (d != INODE_ROOTDIR ==> depth[d] == depth[nodes[d].parent] + 1)
  }

  /** The directory graph is a tree. */
  ghost predicate Tree(nodes: Nodes, files: set<iptr>) {
    exists home, depth :: TreeBy(nodes, files, home, depth)
  }

  lemma TreeRanked(nodes: Nodes, files: set<iptr>, home: map<iptr, iptr>, depth: map<iptr, nat>)
    requires TreeBy(nodes, files, home, depth)
    ensures Ranked(nodes, depth)
  {
    forall d | d in nodes
      ensures d in depth && nodes[d].parent in nodes && nodes[d].parent in depth
      ensures d != INODE_ROOTDIR ==> depth[d] == depth[nodes[d].parent] + 1
    {
      if d != INODE_ROOTDIR { assert HomeOk(nodes, home, depth, d); }
    }
  }

  // ---- mkdir, creat and rmdir on the tree ----

  function AddChild(nodes: Nodes, d: iptr, e: Entry): Nodes
    requires d in nodes
  {
    nodes[d := nodes[d].(children := nodes[d].children + [e])]
  }

  function AddDir(nodes: Nodes, d: iptr, e: Entry): Nodes
    requires d in nodes
  {
    AddChild(nodes, d, e)[e.inode := DirNode(d, [])]
  }

  function RemoveDir(nodes: Nodes, d: iptr, e: Entry): Nodes
    requires d in nodes
  {
    nodes[d := nodes[d].(children := Without(nodes[d].children, e.name))] - {e.inode}
  }

  /** A name that may be added to a directory. */
  predicate FreshName(nodes: Nodes, d: iptr, name: seq<byte>)
    requires d in nodes
  {
    ValidName(name) && Find(AllEntries(nodes, d), name).None?
  }

  function AllEntries(nodes: Nodes, d: iptr): seq<Entry>
    requires d in nodes
  {
    AllOf(d, nodes[d])
  }

  /** The records of a directory file, given its own number. */
  function AllOf(d: iptr, n: DirNode): seq<Entry> {
    [Entry(d, ITYPE_DIR, DOT), Entry(n.parent, ITYPE_DIR, DOTDOT)] + n.children
  }

  lemma FindInAll(nodes: Nodes, d: iptr, name: seq<byte>)
    requires d in nodes
    ensures var es := AllEntries(nodes, d);
            Find(es, name) == if name == DOT then Some(es[0]) else if name == DOTDOT then Some(es[1])
                              else Find(nodes[d].children, name)
  {
    var es := AllEntries(nodes, d);
    assert es[1..] == [es[1]] + nodes[d].children;
    assert es[1..][1..] == nodes[d].children;
  }

  lemma AppendedEntry(es: seq<Entry>, e: Entry)
    ensures forall f :: f in es + [e] <==> f in es || f == e
  {
  }

  lemma AppendUnique(es: seq<Entry>, e: Entry)
    requires UniqueNames(es) && UniqueInodes(es)
    requires forall f :: f in es ==> f.name != e.name && f.inode != e.inode
    ensures UniqueNames(es + [e]) && UniqueInodes(es + [e])
  {
  }

  lemma AddedDirOk(nodes: Nodes, files: set<iptr>, home: map<iptr, iptr>, d: iptr, e: Entry, n: Nodes, fs: set<iptr>,
          h: map<iptr, iptr>, x: iptr)
    requires d in nodes && FreshName(nodes, d, e.name) && e.inode !in home
    requires x in nodes && x in n && DirOk(nodes, files, home, x)
    requires forall i :: i in home ==> i in h && h[i] == home[i]
    requires forall i :: i in home ==> (i in n <==> i in nodes)
    requires files <= fs && e.inode in h && h[e.inode] == d && EntryOk(n, fs, h, d, e)
    requires n[x].children == nodes[x].children + if x == d then [e] else []
    ensures DirOk(n, fs, h, x)
  {
    var es := nodes[x].children;
    if x == d {
      FindInAll(nodes, d, e.name);
      AppendUnique(es, e);
      AppendedEntry(es, e);
    } else {
      assert n[x].children == es;
    }
    forall f | f in es ensures EntryOk(n, fs, h, x, f) {
      assert EntryOk(nodes, files, home, x, f);
    }
  }

  lemma AddedHolds(nodes: Nodes, d: iptr, e: Entry, n: Nodes, x: iptr, i: iptr)
    requires d in nodes && x in n && (Holds(nodes, x, i) || (x == d && i == e.inode))
    requires x in nodes ==> n[x].children == nodes[x].children + if x == d then [e] else []
    ensures Holds(n, x, i)
  {
    AppendedEntry(nodes[x].children, e);
    if x == d && i == e.inode {
      assert e in n[x].children;
    } else {
      var f :| f in nodes[x].children && f.inode == i;
      assert f in n[x].children;
    }
  }

  /** n is the tree with e listed in d, and possibly the directory e.inode added, empty. */
  predicate Extends(nodes: Nodes, d: iptr, e: Entry, n: Nodes) {
    && d in nodes && e.inode !in nodes
    && nodes.Keys <= n.Keys <= nodes.Keys + {e.inode}
    && (e.inode in n ==> n[e.inode] == DirNode(d, []))
    && forall x :: x in nodes ==>
      n[x].parent == nodes[x].parent && n[x].children == nodes[x].children + if x == d then [e] else []
  }

  lemma AddingExtends(nodes: Nodes, d: iptr, e: Entry)
    requires d in nodes && e.inode !in nodes
    ensures Extends(nodes, d, e, AddChild(nodes, d, e)) && Extends(nodes, d, e, AddDir(nodes, d, e))
  {
    assert forall x :: x in nodes && x != d ==> nodes[x].children + [] == nodes[x].children;
  }

  lemma NewEntryOk(nodes: Nodes, d: iptr, e: Entry, n: Nodes, fs: set<iptr>, h: map<iptr, iptr>)
    requires d in nodes && FreshName(nodes, d, e.name) && e.inode in h && h[e.inode] == d
    requires if e.inode in n then e.kind == ITYPE_DIR else e.kind == ITYPE_FILE && e.inode in fs
    ensures EntryOk(n, fs, h, d, e)
  {
    FindInAll(nodes, d, e.name);
  }

  /** creat keeps the tree. */
  lemma CreatKeepsTree(nodes: Nodes, files: set<iptr>, d: iptr, e: Entry)
    requires Tree(nodes, files) && d in nodes && FreshName(nodes, d, e.name)
    requires e.kind == ITYPE_FILE && e.inode !in nodes && e.inode !in files
    ensures Tree(AddChild(nodes, d, e), files + {e.inode})
  {
    var home, depth :| TreeBy(nodes, files, home, depth);
    AddingExtends(nodes, d, e);
    AddingKeepsTree(nodes, files, home, depth, d, e, AddChild(nodes, d, e), files + {e.inode}, depth);
  }

  /** mkdir with a fresh inode keeps the tree. */
  lemma MkdirKeepsTree(nodes: Nodes, files: set<iptr>, d: iptr, e: Entry)
    requires Tree(nodes, files) && d in nodes && FreshName(nodes, d, e.name)
    requires e.kind == ITYPE_DIR && e.inode !in nodes && e.inode !in files
    ensures Tree(AddDir(nodes, d, e), files)
  {
    var home, depth :| TreeBy(nodes, files, home, depth);
    TreeRanked(nodes, files, home, depth);
    AddingExtends(nodes, d, e);
    AddingKeepsTree(nodes, files, home, depth, d, e, AddDir(nodes, d, e), files, depth[e.inode := depth[d] + 1]);
  }

  lemma AddingKeepsTree(nodes: Nodes, files: set<iptr>, home: map<iptr, iptr>, depth: map<iptr, nat>, d: iptr, e: Entry,
                        n: Nodes, fs: set<iptr>, dep: map<iptr, nat>)
    requires TreeBy(nodes, files, home, depth) && Extends(nodes, d, e, n) && FreshName(nodes, d, e.name)
    requires e.inode !in files
    requires if e.inode in n then e.kind == ITYPE_DIR && fs == files
             else e.kind == ITYPE_FILE && fs == files + {e.inode}
    requires dep == depth || (d in depth && dep == depth[e.inode := depth[d] + 1])
    requires e.inode in n ==> e.inode in dep && d in dep && dep[e.inode] == dep[d] + 1
    ensures Tree(n, fs)
  {
    var h := home[e.inode := d];
    NewEntryOk(nodes, d, e, n, fs, h);
    AddedDirsOk(nodes, files, home, depth, d, e, n, fs, h);
    AddedHomesOk(nodes, files, home, depth, d, e, n, h, dep);
    Assemble(nodes, files, home, depth, d, e, n, fs, h, dep);
  }

  lemma Assemble(nodes: Nodes, files: set<iptr>, home: map<iptr, iptr>, depth: map<iptr, nat>, d: iptr, e: Entry,
                 n: Nodes, fs: set<iptr>, h: map<iptr, iptr>, dep: map<iptr, nat>)
    requires INODE_ROOTDIR in nodes && nodes[INODE_ROOTDIR].parent == INODE_ROOTDIR
    requires INODE_ROOTDIR in dep && dep[INODE_ROOTDIR] == 0
    requires nodes.Keys !! files && home.Keys == nodes.Keys + files - {INODE_ROOTDIR}
    requires Extends(nodes, d, e, n) && e.inode !in files && h == home[e.inode := d]
    requires if e.inode in n then fs == files else fs == files + {e.inode}
    requires forall x :: x in n ==> DirOk(n, fs, h, x)
    requires forall i :: i in h ==> HomeOk(n, h, dep, i)
    ensures Tree(n, fs)
  {
    TreeIntro(n, fs, h, dep);
  }

  lemma TreeIntro(n: Nodes, files: set<iptr>, h: map<iptr, iptr>, depth: map<iptr, nat>)
    requires INODE_ROOTDIR in n && n[INODE_ROOTDIR].parent == INODE_ROOTDIR
    requires INODE_ROOTDIR in depth && depth[INODE_ROOTDIR] == 0
    requires n.Keys !! files && h.Keys == n.Keys + files - {INODE_ROOTDIR}
    requires forall d :: d in n ==> DirOk(n, files, h, d)
    requires forall i :: i in h ==> HomeOk(n, h, depth, i)
    ensures Tree(n, files)
  {
    assert TreeBy(n, files, h, depth);
  }

  lemma AddedDirsOk(nodes: Nodes, files: set<iptr>, home: map<iptr, iptr>, depth: map<iptr, nat>, d: iptr, e: Entry,
                    n: Nodes, fs: set<iptr>, h: map<iptr, iptr>)
    requires TreeBy(nodes, files, home, depth) && Extends(nodes, d, e, n) && FreshName(nodes, d, e.name)
    requires e.inode !in home && h == home[e.inode := d] && files <= fs && EntryOk(n, fs, h, d, e)
    ensures forall x :: x in n ==> DirOk(n, fs, h, x)
  {
    forall x | x in n ensures DirOk(n, fs, h, x) {
      if x in nodes { AddedDirOk(nodes, files, home, d, e, n, fs, h, x); }
    }
  }

  lemma AddedHomesOk(nodes: Nodes, files: set<iptr>, home: map<iptr, iptr>, depth: map<iptr, nat>, d: iptr, e: Entry,
                     n: Nodes, h: map<iptr, iptr>, dep: map<iptr, nat>)
    requires TreeBy(nodes, files, home, depth) && Extends(nodes, d, e, n)
    requires e.inode !in home && h == home[e.inode := d]
    requires forall x :: x in depth && x != e.inode ==> x in dep && dep[x] == depth[x]
    requires e.inode in n ==> e.inode in dep && d in dep && dep[e.inode] == dep[d] + 1
    ensures forall i :: i in h ==> HomeOk(n, h, dep, i)
  {
    forall i | i in h ensures HomeOk(n, h, dep, i) {
      if i != e.inode { assert HomeOk(nodes, home, depth, i); }
      AddedHolds(nodes, d, e, n, h[i], i);
    }
  }

  /** rmdir of an empty directory keeps the tree. */
  lemma RmdirKeepsTree(nodes: Nodes, files: set<iptr>, d: iptr, e: Entry)
    requires Tree(nodes, files) && Lists(nodes, d, e)
    requires e.inode in nodes && nodes[e.inode].children == []
    ensures d != e.inode && e.inode != INODE_ROOTDIR && Tree(RemoveDir(nodes, d, e), files)
  {
    var home, depth :| TreeBy(nodes, files, home, depth);
    var n, h := RemoveDir(nodes, d, e), home - {e.inode};
    EmptyDirIsNotItsParent(nodes, files, home, depth, d, e);
    RemovedDirsOk(nodes, files, home, depth, d, e);
    RemovedHomesOk(nodes, files, home, depth, d, e);
    TreeIntro(n, files, h, depth);
  }

  lemma EmptyDirIsNotItsParent(nodes: Nodes, files: set<iptr>, home: map<iptr, iptr>, depth: map<iptr, nat>, d: iptr,
          e: Entry)
    requires TreeBy(nodes, files, home, depth) && Lists(nodes, d, e)
    requires e.inode in nodes && nodes[e.inode].children == []
    ensures d != e.inode && e.inode != INODE_ROOTDIR
  {
    assert EntryOk(nodes, files, home, d, e);
  }

  lemma RemovedDirsOk(nodes: Nodes, files: set<iptr>, home: map<iptr, iptr>, depth: map<iptr, nat>, d: iptr, e: Entry)
    requires TreeBy(nodes, files, home, depth) && Lists(nodes, d, e) && d != e.inode
    ensures forall x :: x in RemoveDir(nodes, d, e) ==> DirOk(RemoveDir(nodes, d, e), files, home - {e.inode}, x)
  {
    forall x | x in RemoveDir(nodes, d, e) ensures DirOk(RemoveDir(nodes, d, e), files, home - {e.inode}, x) {
      RemovedDirOk(nodes, files, home, d, e, x);
    }
  }

  lemma RemovedHomesOk(nodes: Nodes, files: set<iptr>, home: map<iptr, iptr>, depth: map<iptr, nat>, d: iptr, e: Entry)
    requires TreeBy(nodes, files, home, depth) && Lists(nodes, d, e) && d != e.inode
    requires e.inode in nodes && nodes[e.inode].children == []
    ensures forall i :: i in home - {e.inode} ==> HomeOk(RemoveDir(nodes, d, e), home - {e.inode}, depth, i)
  {
    forall i | i in home - {e.inode} ensures HomeOk(RemoveDir(nodes, d, e), home - {e.inode}, depth, i) {
      assert HomeOk(nodes, home, depth, i);
      RemovedHolds(nodes, files, home, d, e, home[i], i);
    }
  }

  lemma RemovedDirOk(nodes: Nodes, files: set<iptr>, home: map<iptr, iptr>, d: iptr, e: Entry, x: iptr)
    requires Lists(nodes, d, e) && d != e.inode && x in nodes && x != e.inode
    requires DirOk(nodes, files, home, d) && DirOk(nodes, files, home, x)
    ensures DirOk(RemoveDir(nodes, d, e), files, home - {e.inode}, x)
  {
    var n, h := RemoveDir(nodes, d, e), home - {e.inode};
    var es := nodes[x].children;
    WithoutUnique(es, e.name);
    assert EntryOk(nodes, files, home, d, e);
    forall f | f in n[x].children ensures EntryOk(n, files, h, x, f) {
      assert EntryOk(nodes, files, home, x, f);
      if f.inode == e.inode { SameEntry(es, e, f); }
    }
  }

  lemma SameEntry(es: seq<Entry>, e: Entry, f: Entry)
    requires e in es && f in es
    requires (UniqueInodes(es) && e.inode == f.inode) || (UniqueNames(es) && e.name == f.name)
    ensures e == f
  {
    var j :| 0 <= j < |es| && es[j] == e;
    var k :| 0 <= k < |es| && es[k] == f;
    assert j == k;
  }

  lemma OtherName(es: seq<Entry>, e: Entry, f: Entry)
    requires e in es && f in es && UniqueNames(es) && e.inode != f.inode
    ensures e.name != f.name
  {
    var j :| 0 <= j < |es| && es[j] == e;
    var k :| 0 <= k < |es| && es[k] == f;
    assert j != k;
  }

  lemma RemovedHolds(nodes: Nodes, files: set<iptr>, home: map<iptr, iptr>, d: iptr, e: Entry, x: iptr, i: iptr)
    requires Lists(nodes, d, e) && d != e.inode && DirOk(nodes, files, home, d)
    requires e.inode in nodes && nodes[e.inode].children == []
    requires Holds(nodes, x, i) && i != e.inode
    ensures x in RemoveDir(nodes, d, e) && Holds(RemoveDir(nodes, d, e), x, i)
  {
    var f :| f in nodes[x].children && f.inode == i;
    if x == d { OtherName(nodes[d].children, e, f); }
    assert f in RemoveDir(nodes, d, e)[x].children;
  }

  /** mkdir followed by rmdir of the same name is the identity on the tree. */
  lemma RmdirUndoesMkdir(nodes: Nodes, d: iptr, e: Entry)
    requires d in nodes && FreshName(nodes, d, e.name) && e.inode !in nodes
    ensures RemoveDir(AddDir(nodes, d, e), d, e) == nodes
  {
    FindInAll(nodes, d, e.name);
    WithoutUndoesAppend(nodes[d].children, e);
  }

  // ---- what the tree invariant means ----

  /** Every inode has at most one entry in the whole tree, and the entry of a directory stands in the
      directory its ".." names. */
  lemma OneEntryEach(nodes: Nodes, files: set<iptr>, d: iptr, e: Entry, d': iptr, e': Entry)
    requires Tree(nodes, files) && Lists(nodes, d, e) && Lists(nodes, d', e') && e.inode == e'.inode
    ensures d == d' && e == e'
    ensures e.kind == ITYPE_DIR ==> e.inode in nodes && nodes[e.inode].parent == d
  {
    var home, depth :| TreeBy(nodes, files, home, depth);
    assert EntryOk(nodes, files, home, d, e) && EntryOk(nodes, files, home, d', e');
    assert HomeOk(nodes, home, depth, e.inode);
    SameEntry(nodes[d].children, e, e');
  }

  /** Every live inode but the root has an entry, and a directory's entry is where ".." points. */
  lemma EveryInodeListed(nodes: Nodes, files: set<iptr>, i: iptr) returns (d: iptr, e: Entry)
    requires Tree(nodes, files) && i in nodes.Keys + files && i != INODE_ROOTDIR
    ensures Lists(nodes, d, e) && e.inode == i
    ensures i in nodes ==> nodes[i].parent == d && e.kind == ITYPE_DIR
    ensures i in files ==> e.kind == ITYPE_FILE
  {
    var home, depth :| TreeBy(nodes, files, home, depth);
    assert HomeOk(nodes, home, depth, i);
    d := home[i];
    e :| e in nodes[d].children && e.inode == i;
    assert EntryOk(nodes, files, home, d, e);
  }

  /** An entry that names a directory says so, and is not the root's. */
  lemma ListedDirectory(nodes: Nodes, files: set<iptr>, d: iptr, e: Entry)
    requires Tree(nodes, files) && Lists(nodes, d, e) && e.inode in nodes
    ensures e.kind == ITYPE_DIR && e.inode != INODE_ROOTDIR && nodes[e.inode].parent == d
  {
    var home, depth :| TreeBy(nodes, files, home, depth);
    assert DirOk(nodes, files, home, d) && EntryOk(nodes, files, home, d, e) && HomeOk(nodes, home, depth, e.inode);
  }

  lemma RootNamed(nodes: Nodes, files: set<iptr>)
    requires Tree(nodes, files)
    ensures INODE_ROOTDIR in nodes
  {
    var home, depth :| TreeBy(nodes, files, home, depth);
  }

  /** n steps along "..". */
  function Up(nodes: Nodes, d: iptr, n: nat): iptr
    requires d in nodes
    requires forall x :: x in nodes ==> nodes[x].parent in nodes
    decreases n
  {
    if n == 0 then d else Up(nodes, nodes[d].parent, n - 1)
  }

  lemma ParentsLive(nodes: Nodes, files: set<iptr>)
    requires Tree(nodes, files)
    ensures forall x :: x in nodes ==> nodes[x].parent in nodes
  {
    var home, depth :| TreeBy(nodes, files, home, depth);
    TreeRanked(nodes, files, home, depth);
  }

  /** Following ".." reaches the root in finitely many steps. */
  lemma DotDotReachesRoot(nodes: Nodes, files: set<iptr>, d: iptr)
    requires Tree(nodes, files) && d in nodes
    ensures forall x :: x in nodes ==> nodes[x].parent in nodes
    ensures exists n: nat :: Up(nodes, d, n) == INODE_ROOTDIR
  {
    var home, depth :| TreeBy(nodes, files, home, depth);
    TreeRanked(nodes, files, home, depth);
    UpToRoot(nodes, depth, d);
  }

  lemma {:induction false} UpToRoot(nodes: Nodes, depth: map<iptr, nat>, d: iptr)
    requires Ranked(nodes, depth) && d in nodes
    ensures forall x :: x in nodes ==> nodes[x].parent in nodes
    ensures exists n: nat :: Up(nodes, d, n) == INODE_ROOTDIR
    decreases depth[d]
  {
    if d == INODE_ROOTDIR {
      assert Up(nodes, d, 0) == INODE_ROOTDIR;
    } else {
      var p := nodes[d].parent;
      UpToRoot(nodes, depth, p);
      var m: nat :| Up(nodes, p, m) == INODE_ROOTDIR;
      assert Up(nodes, d, m + 1) == INODE_ROOTDIR;
    }
  }
}
