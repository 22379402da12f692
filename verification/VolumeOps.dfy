/** What rewriting a file, mkdir, creat and rmdir do to the volume invariant and to its three views. */
module VolumeOps {
  import opened Params
  import opened Layout
  import opened BlockMap
  import opened Dirent
  import opened Namespace
  import opened Volume

  lemma Untouched(d: Image, d': Image, live: set<nat>, used: set<nat>, t: set<iptr>)
    requires VolumeOk(d, live, used) && OnlyTouches(d, d', live, used, t)
    ensures forall j: iptr :: j in live && j !in t ==> SameView(d, d', j)
  {
    forall j: iptr | j in live && j !in t ensures SameView(d, d', j) {
      UntouchedSame(d, d', live, used, t, j);
      SameInodeFrame(d, d', j);
    }
  }

  /** Inode j is intact: same inode, same blocks, same bytes, same listing. */
  ghost predicate SameView(d: Image, d': Image, j: iptr)
    requires Shape(d) && Shape(d')
  {
    && InodeOk(d, j) && InodeOk(d', j)
    && InodeAt(d', j) == InodeAt(d, j)
    && Owned(d', InodeAt(d', j)) == Owned(d, InodeAt(d, j))
    && BlockList(d', InodeAt(d', j)) == BlockList(d, InodeAt(d, j))
    && InData(BlockList(d, InodeAt(d, j)))
    && Load(d', InodeAt(d', j)) == Load(d, InodeAt(d, j))
    && (IsDir(d, j) ==> NodeOf(d', j) == NodeOf(d, j))
  }

  // ---- files ----

  /** Growing or rewriting one file keeps the volume, the tree, and every other inode. */
  lemma FileRewritten(d: Image, d': Image, live: set<nat>, used: set<nat>, i: iptr, taken: set<int>, used': set<nat>)
    requires VolumeOk(d, live, used) && OnlyTouches(d, d', live, used, {i}) && i in live && i < INODE_COUNT
    requires InodeAt(d, i).kind == ITYPE_FILE && InodeAt(d', i).kind == ITYPE_FILE && InodeOk(d', i)
    requires forall b: int :: b in taken ==> b !in used && b >= BLOCKID_ROOT_DIR
    requires OwnedSet(d', InodeAt(d', i)) == OwnedSet(d, InodeAt(d, i)) + taken
    requires forall b: int :: b in used' <==> b in used || b in taken
    ensures VolumeOk(d', live, used')
    ensures DirMap(d', live) == DirMap(d, live) && FileSet(d', live) == FileSet(d, live)
    ensures forall j: iptr :: j in live && j != i ==> SameView(d, d', j)
  {
    Untouched(d, d', live, used, {i});
    AllOkAfter(d, d', live, live, {i});
    RewrittenOwners(d, d', live, i);
    RewrittenDirs(d, d', live, i);
    RewrittenFiles(d, d', live, i);
    PartitionGrows(OwnMap(d, live), used, i, OwnedSet(d', InodeAt(d', i)), taken, used');
  }

  lemma AllOkAfter(d: Image, d': Image, live: set<nat>, live': set<nat>, t: set<iptr>)
    requires Shape(d) && Shape(d') && AllOk(d, live)
    requires forall j: iptr :: j in live && j !in t ==> SameView(d, d', j)
    requires forall j: nat :: j in live' ==> j in live || j in t
    requires forall j: iptr :: j in t && j in live' ==> InodeOk(d', j)
    ensures AllOk(d', live')
  {
    forall j: nat | j in live' ensures j < INODE_COUNT && InodeOk(d', j) {
      if j in t {
        var k: iptr :| k == j && k in t;
        assert InodeOk(d', k);
      } else {
        assert j < INODE_COUNT;
        assert SameView(d, d', j);
      }
    }
  }

  lemma OwnMapAfter(d: Image, d': Image, live: set<nat>, live': set<nat>, t: set<iptr>)
    requires Shape(d) && Shape(d') && AllOk(d, live) && AllOk(d', live')
    requires forall j: iptr :: j in live && j !in t ==> SameView(d, d', j)
    ensures forall j: int :: j in live && j in live' && j !in t ==> OwnMap(d', live')[j] == OwnMap(d, live)[j]
  {
    forall j: int | j in live && j in live' && j !in t ensures OwnMap(d', live')[j] == OwnMap(d, live)[j] {
      assert SameView(d, d', j);
    }
  }

  lemma DirMapAfter(d: Image, d': Image, live: set<nat>, live': set<nat>, t: set<iptr>)
    requires Shape(d) && Shape(d') && AllOk(d, live) && AllOk(d', live')
    requires forall j: iptr :: j in live && j !in t ==> SameView(d, d', j)
    ensures forall j: iptr :: j in live && j in live' && j !in t ==>
              && (j in DirMap(d', live') <==> j in DirMap(d, live))
              && (j in DirMap(d, live) ==> DirMap(d', live')[j] == DirMap(d, live)[j])
  {
    forall j: iptr | j in live && j in live' && j !in t
      ensures j in DirMap(d', live') <==> j in DirMap(d, live)
      ensures j in DirMap(d, live) ==> DirMap(d', live')[j] == DirMap(d, live)[j]
    {
      assert SameView(d, d', j);
    }
  }

  lemma FileSetAfter(d: Image, d': Image, live: set<nat>, live': set<nat>, t: set<iptr>)
    requires Shape(d) && Shape(d') && AllOk(d, live) && AllOk(d', live')
    requires forall j: iptr :: j in live && j !in t ==> SameView(d, d', j)
    ensures forall j: iptr :: j in live && j in live' && j !in t ==>
            (j in FileSet(d', live') <==> j in FileSet(d, live))
  {
    forall j: iptr | j in live && j in live' && j !in t ensures j in FileSet(d', live') <==> j in FileSet(d, live) {
      assert SameView(d, d', j);
    }
  }

  /** d' is d with the file i rewritten. */
  ghost predicate Rewritten(d: Image, d': Image, live: set<nat>, i: iptr) {
    && Shape(d) && Shape(d') && AllOk(d, live) && AllOk(d', live) && i in live
    && InodeAt(d, i).kind == ITYPE_FILE && InodeAt(d', i).kind == ITYPE_FILE
    && forall j: iptr :: j in live && j !in {i} ==> SameView(d, d', j)
  }

  lemma RewrittenOwners(d: Image, d': Image, live: set<nat>, i: iptr)
    requires Rewritten(d, d', live, i)
    ensures OwnMap(d', live) == OwnMap(d, live)[i := OwnedSet(d', InodeAt(d', i))]
  {
    OwnMapAfter(d, d', live, live, {i});
  }

  lemma RewrittenDirs(d: Image, d': Image, live: set<nat>, i: iptr)
    requires Rewritten(d, d', live, i)
    ensures DirMap(d', live) == DirMap(d, live)
  {
    DirMapAfter(d, d', live, live, {i});
    DirMapKeys(d, live);
    DirMapKeys(d', live);
    assert i !in DirMap(d', live) && i !in DirMap(d, live);
    SameNodes(DirMap(d', live), DirMap(d, live));
  }

  lemma SameNodes(a: Nodes, b: Nodes)
    requires forall j :: j in a <==> j in b
    requires forall j :: j in a && j in b ==> a[j] == b[j]
    ensures a == b
  {
  }

  lemma RewrittenFiles(d: Image, d': Image, live: set<nat>, i: iptr)
    requires Rewritten(d, d', live, i)
    ensures FileSet(d', live) == FileSet(d, live)
  {
    FileSetAfter(d, d', live, live, {i});
    DirMapKeys(d, live);
    DirMapKeys(d', live);
    assert i in FileSet(d', live) && i in FileSet(d, live);
  }

  lemma DirMapKeys(d: Image, live: set<nat>)
    requires Shape(d) && AllOk(d, live)
    ensures forall j :: j in DirMap(d, live) ==> j in live
    ensures forall j :: j in FileSet(d, live) ==> j in live
  {
  }

  /** A change to the superblock and the bitmaps alone changes nothing in the volume. */
  lemma NothingTouched(d: Image, d': Image, live: set<nat>, used: set<nat>)
    requires VolumeOk(d, live, used) && Shape(d') && SameData(d, d')
    ensures VolumeOk(d', live, used)
    ensures DirMap(d', live) == DirMap(d, live) && FileSet(d', live) == FileSet(d, live)
    ensures forall j: iptr :: j in live ==> SameView(d, d', j)
  {
    SameDataSameInodes(d, d');
    Untouched(d, d', live, used, {});
    hide VolumeOk, SameView;
    assert forall j: iptr :: j in live ==> SameView(d, d', j);
    SameViews(d, d', live, used);
  }

  lemma SameViews(d: Image, d': Image, live: set<nat>, used: set<nat>)
    requires VolumeOk(d, live, used) && Shape(d') && forall j: iptr :: j in live ==> SameView(d, d', j)
    ensures VolumeOk(d', live, used)
    ensures DirMap(d', live) == DirMap(d, live) && FileSet(d', live) == FileSet(d, live)
  {
    hide SameView, Tree, Partition, InodeOk, OwnMap, DirMap, FileSet, AllOk;
    AllOkAfter(d, d', live, live, {});
    SameOwners(d, d', live);
    SameDirs(d, d', live);
    SameFiles(d, d', live);
  }

  lemma SameOwners(d: Image, d': Image, live: set<nat>)
    requires Shape(d) && Shape(d') && AllOk(d, live) && AllOk(d', live)
    requires forall j: iptr :: j in live ==> SameView(d, d', j)
    ensures OwnMap(d', live) == OwnMap(d, live)
  {
    hide SameView, OwnedSet;
    OwnMapAfter(d, d', live, live, {});
  }

  lemma SameDirs(d: Image, d': Image, live: set<nat>)
    requires Shape(d) && Shape(d') && AllOk(d, live) && AllOk(d', live)
    requires forall j: iptr :: j in live ==> SameView(d, d', j)
    ensures DirMap(d', live) == DirMap(d, live)
  {
    DirMapKeys(d, live);
    DirMapKeys(d', live);
    hide SameView, DirMap, AllOk;
    DirMapAfter(d, d', live, live, {});
    SameNodes(DirMap(d', live), DirMap(d, live));
  }

  lemma SameFiles(d: Image, d': Image, live: set<nat>)
    requires Shape(d) && Shape(d') && AllOk(d, live) && AllOk(d', live)
    requires forall j: iptr :: j in live ==> SameView(d, d', j)
    ensures FileSet(d', live) == FileSet(d, live)
  {
    DirMapKeys(d, live);
    DirMapKeys(d', live);
    hide SameView, FileSet, AllOk;
    FileSetAfter(d, d', live, live, {});
  }

  // ---- mkdir and creat ----

  /** d' is d with a new inode, listed as e in directory p. */
  ghost predicate Added(d: Image, d': Image, live: set<nat>, p: iptr, e: Entry, live': set<nat>) {
    && Shape(d) && Shape(d') && AllOk(d, live) && AllOk(d', live')
    && p in live && IsDir(d, p) && IsDir(d', p)
    && e.inode !in live && InodeOk(d', e.inode) && InodeAt(d', e.inode).kind == e.kind
    && live' == live + {e.inode as nat}
    && OwnedSet(d', InodeAt(d', p)) == OwnedSet(d, InodeAt(d, p))
    && NodeOf(d', p) == DirNode(NodeOf(d, p).parent, NodeOf(d, p).children + [e])
    && (e.kind == ITYPE_DIR ==> NodeOf(d', e.inode) == DirNode(p, []))
    && forall j: iptr :: j in live && j !in {p, e.inode} ==> SameView(d, d', j)
  }

  lemma AddedOwners(d: Image, d': Image, live: set<nat>, p: iptr, e: Entry, live': set<nat>)
    requires Added(d, d', live, p, e, live')
    ensures OwnMap(d', live') == OwnMap(d, live)[e.inode := OwnedSet(d', InodeAt(d', e.inode))]
  {
    OwnMapAfter(d, d', live, live', {p, e.inode});
  }

  lemma AddedInDirs(d: Image, d': Image, live: set<nat>, p: iptr, e: Entry, live': set<nat>)
    requires Added(d, d', live, p, e, live')
    ensures p in DirMap(d, live) && p in DirMap(d', live')
    ensures DirMap(d, live)[p] == NodeOf(d, p) && DirMap(d', live')[p] == NodeOf(d', p)
    ensures e.inode !in DirMap(d, live) && (e.inode in DirMap(d', live') <==> e.kind == ITYPE_DIR)
    ensures e.kind == ITYPE_DIR ==> DirMap(d', live')[e.inode] == DirNode(p, [])
  {
  }

  lemma AddedDirs(d: Image, d': Image, live: set<nat>, p: iptr, e: Entry, live': set<nat>)
    requires Added(d, d', live, p, e, live')
    ensures p in DirMap(d, live)
    ensures DirMap(d', live') == if e.kind == ITYPE_DIR then AddDir(DirMap(d, live), p, e)
            else AddChild(DirMap(d, live), p, e)
  {
    AddedInDirs(d, d', live, p, e, live');
    AddedOthers(d, d', live, p, e, live');
    var a, b := DirMap(d', live'), DirMap(d, live);
    AddedKeys(d, d', live, p, e, live');
    AddedNodes(a, b, p, e);
  }

  lemma DirMapMember(d: Image, live: set<nat>, j: iptr)
    requires Shape(d) && AllOk(d, live)
    ensures j in DirMap(d, live) <==> j in live && InodeAt(d, j).kind == ITYPE_DIR
  {
  }

  lemma AddedOther(d: Image, d': Image, live: set<nat>, p: iptr, e: Entry, live': set<nat>, j: iptr)
    requires Added(d, d', live, p, e, live') && j in DirMap(d, live) && j != p
    ensures j in DirMap(d', live') && DirMap(d', live')[j] == DirMap(d, live)[j]
  {
    hide DirMap, InodeOk, SameView, OwnedSet, NodeOf, IsDir, AllOk;
    DirMapMember(d, live, j);
    SameNode(d, d', live, live', {p, e.inode}, j);
  }

  lemma AddedOthers(d: Image, d': Image, live: set<nat>, p: iptr, e: Entry, live': set<nat>)
    requires Added(d, d', live, p, e, live')
    ensures forall j: iptr :: j in DirMap(d, live) && j != p ==>
              j in DirMap(d', live') && DirMap(d', live')[j] == DirMap(d, live)[j]
  {
    forall j: iptr | j in DirMap(d, live) && j != p
      ensures j in DirMap(d', live') && DirMap(d', live')[j] == DirMap(d, live)[j]
    {
      AddedOther(d, d', live, p, e, live', j);
    }
  }

  lemma SameNode(d: Image, d': Image, live: set<nat>, live': set<nat>, t: set<iptr>, j: iptr)
    requires Shape(d) && Shape(d') && AllOk(d, live) && AllOk(d', live') && j in live' && j !in t
    requires j in DirMap(d, live)
    requires forall j: iptr :: j in live && j !in t ==> SameView(d, d', j)
    ensures j in DirMap(d', live') && DirMap(d', live')[j] == DirMap(d, live)[j]
  {
    assert SameView(d, d', j);
  }

  lemma AddedKeys(d: Image, d': Image, live: set<nat>, p: iptr, e: Entry, live': set<nat>)
    requires Added(d, d', live, p, e, live')
    ensures forall j: iptr :: j in DirMap(d', live') <==> j in DirMap(d, live) || (e.kind == ITYPE_DIR && j == e.inode)
  {
    forall j: iptr ensures j in DirMap(d', live') <==> j in DirMap(d, live) || (e.kind == ITYPE_DIR && j == e.inode) {
      AddedKey(d, d', live, p, e, live', j);
    }
  }

  lemma FileSetMember(d: Image, live: set<nat>, j: iptr)
    requires Shape(d) && AllOk(d, live)
    ensures j in FileSet(d, live) <==> j in live && InodeAt(d, j).kind == ITYPE_FILE
  {
  }

  lemma AddedKey(d: Image, d': Image, live: set<nat>, p: iptr, e: Entry, live': set<nat>, j: iptr)
    requires Added(d, d', live, p, e, live')
    ensures j in DirMap(d', live') <==> j in DirMap(d, live) || (e.kind == ITYPE_DIR && j == e.inode)
  {
    hide DirMap, SameView, OwnedSet, NodeOf, AllOk;
    DirMapMember(d, live, j);
    DirMapMember(d', live', j);
    if j in live && j != p { SameKind(d, d', live, {p, e.inode}, j); }
  }

  lemma RemovedOther(d: Image, d': Image, live: set<nat>, p: iptr, e: Entry, live': set<nat>, j: iptr)
    requires Removed(d, d', live, p, e, live') && j in DirMap(d, live) && j != p && j != e.inode
    ensures j in DirMap(d', live') && DirMap(d', live')[j] == DirMap(d, live)[j]
  {
    hide DirMap, InodeOk, SameView, OwnedSet, NodeOf, IsDir, AllOk;
    DirMapMember(d, live, j);
    SameNode(d, d', live, live', {p, e.inode}, j);
  }

  lemma RemovedOthers(d: Image, d': Image, live: set<nat>, p: iptr, e: Entry, live': set<nat>)
    requires Removed(d, d', live, p, e, live')
    ensures forall j: iptr :: j in DirMap(d, live) && j != p && j != e.inode ==>
              j in DirMap(d', live') && DirMap(d', live')[j] == DirMap(d, live)[j]
  {
    forall j: iptr | j in DirMap(d, live) && j != p && j != e.inode
      ensures j in DirMap(d', live') && DirMap(d', live')[j] == DirMap(d, live)[j]
    {
      RemovedOther(d, d', live, p, e, live', j);
    }
  }

  lemma RemovedKeys(d: Image, d': Image, live: set<nat>, p: iptr, e: Entry, live': set<nat>)
    requires Removed(d, d', live, p, e, live')
    ensures forall j: iptr :: j in DirMap(d', live') <==> j in DirMap(d, live) && j != e.inode
  {
    forall j: iptr ensures j in DirMap(d', live') <==> j in DirMap(d, live) && j != e.inode {
      RemovedKey(d, d', live, p, e, live', j);
    }
  }

  lemma RemovedKey(d: Image, d': Image, live: set<nat>, p: iptr, e: Entry, live': set<nat>, j: iptr)
    requires Removed(d, d', live, p, e, live')
    ensures j in DirMap(d', live') <==> j in DirMap(d, live) && j != e.inode
  {
    DirMapMember(d, live, j);
    DirMapMember(d', live', j);
    if j in live && j !in {p, e.inode} { SameKind(d, d', live, {p, e.inode}, j); }
  }

  lemma SameKind(d: Image, d': Image, live: set<nat>, t: set<iptr>, j: iptr)
    requires Shape(d) && Shape(d') && j in live && j !in t
    requires forall j: iptr :: j in live && j !in t ==> SameView(d, d', j)
    ensures j < INODE_COUNT && InodeAt(d', j) == InodeAt(d, j)
  {
    assert SameView(d, d', j);
  }

  lemma AddedNodes(a: Nodes, b: Nodes, p: iptr, e: Entry)
    requires p in b && e.inode !in b
    requires forall j: iptr :: j in a <==> j in b || (e.kind == ITYPE_DIR && j == e.inode)
    requires a[p] == DirNode(b[p].parent, b[p].children + [e])
    requires e.kind == ITYPE_DIR ==> a[e.inode] == DirNode(p, [])
    requires forall j: iptr :: j in b && j != p ==> a[j] == b[j]
    ensures a == if e.kind == ITYPE_DIR then AddDir(b, p, e) else AddChild(b, p, e)
  {
    SameNodes(a, if e.kind == ITYPE_DIR then AddDir(b, p, e) else AddChild(b, p, e));
  }

  lemma RemovedNodes(a: Nodes, b: Nodes, p: iptr, e: Entry)
    requires p in b && e.inode in b && e.inode != p
    requires forall j: iptr :: j in a <==> j in b && j != e.inode
    requires a[p] == DirNode(b[p].parent, Without(b[p].children, e.name))
    requires forall j: iptr :: j in b && j != p && j != e.inode ==> a[j] == b[j]
    ensures a == RemoveDir(b, p, e)
  {
    SameNodes(a, RemoveDir(b, p, e));
  }

  lemma AddedFiles(d: Image, d': Image, live: set<nat>, p: iptr, e: Entry, live': set<nat>)
    requires Added(d, d', live, p, e, live')
    ensures FileSet(d', live') == FileSet(d, live) + if e.kind == ITYPE_FILE then {e.inode} else {}
  {
    FileSetAfter(d, d', live, live', {p, e.inode});
    DirMapKeys(d, live);
    DirMapKeys(d', live');
    assert p !in FileSet(d, live) && p !in FileSet(d', live');
    assert e.inode in FileSet(d', live') <==> e.kind == ITYPE_FILE;
  }

  /** A new inode, with at most fresh blocks, listed under a fresh name: mkdir and creat keep the volume. */
  lemma AddedKeepsVolume(d: Image, d': Image, live: set<nat>, used: set<nat>, p: iptr, e: Entry, live': set<nat>,
          used': set<nat>)
    requires VolumeOk(d, live, used) && Added(d, d', live, p, e, live')
    requires p in DirMap(d, live) && FreshName(DirMap(d, live), p, e.name)
    requires e.kind == ITYPE_DIR || e.kind == ITYPE_FILE
    requires forall b: int :: b in OwnedSet(d', InodeAt(d', e.inode)) ==> b !in used && b >= BLOCKID_ROOT_DIR
    requires forall b: int :: b in used' <==> b in used || b in OwnedSet(d', InodeAt(d', e.inode))
    ensures VolumeOk(d', live', used')
  {
    AddedKeepsPartition(d, d', live, used, p, e, live', used');
    AddedKeepsTree(d, d', live, p, e, live');
  }

  lemma AddedKeepsPartition(d: Image, d': Image, live: set<nat>, used: set<nat>, p: iptr, e: Entry, live': set<nat>,
          used': set<nat>)
    requires Added(d, d', live, p, e, live') && Partition(OwnMap(d, live), used)
    requires forall b: int :: b in OwnedSet(d', InodeAt(d', e.inode)) ==> b !in used && b >= BLOCKID_ROOT_DIR
    requires forall b: int :: b in used' <==> b in used || b in OwnedSet(d', InodeAt(d', e.inode))
    ensures Partition(OwnMap(d', live'), used')
  {
    AddedOwners(d, d', live, p, e, live');
    var s := OwnedSet(d', InodeAt(d', e.inode));
    PartitionGrows(OwnMap(d, live), used, e.inode, s, s, used');
  }

  lemma AddedKeepsTree(d: Image, d': Image, live: set<nat>, p: iptr, e: Entry, live': set<nat>)
    requires Added(d, d', live, p, e, live') && Tree(DirMap(d, live), FileSet(d, live))
    requires p in DirMap(d, live) && FreshName(DirMap(d, live), p, e.name)
    requires e.kind == ITYPE_DIR || e.kind == ITYPE_FILE
    ensures Tree(DirMap(d', live'), FileSet(d', live'))
  {
    AddedDirs(d, d', live, p, e, live');
    AddedFiles(d, d', live, p, e, live');
    DirMapKeys(d, live);
    AddedNodesKeepTree(DirMap(d, live), FileSet(d, live), p, e, DirMap(d', live'), FileSet(d', live'));
  }

  lemma AddedNodesKeepTree(b: Nodes, f: set<iptr>, p: iptr, e: Entry, a: Nodes, f': set<iptr>)
    requires Tree(b, f) && p in b && FreshName(b, p, e.name) && e.inode !in b && e.inode !in f
    requires e.kind == ITYPE_DIR || e.kind == ITYPE_FILE
    requires a == if e.kind == ITYPE_DIR then AddDir(b, p, e) else AddChild(b, p, e)
    requires f' == f + if e.kind == ITYPE_FILE then {e.inode} else {}
    ensures Tree(a, f')
  {
    if e.kind == ITYPE_DIR {
      MkdirKeepsTree(b, f, p, e);
      assert f' == f;
    } else {
      CreatKeepsTree(b, f, p, e);
    }
  }

  // ---- rmdir ----

  /** d' is d with the entry e gone from directory p, and its inode no longer live. */
  ghost predicate Removed(d: Image, d': Image, live: set<nat>, p: iptr, e: Entry, live': set<nat>) {
    && Shape(d) && Shape(d') && AllOk(d, live) && AllOk(d', live')
    && p in live && IsDir(d, p) && IsDir(d', p)
    && e.inode in live && e.inode != p && InodeAt(d, e.inode).kind == ITYPE_DIR
    && live' == live - {e.inode as nat}
    && OwnedSet(d', InodeAt(d', p)) == OwnedSet(d, InodeAt(d, p))
    && NodeOf(d', p) == DirNode(NodeOf(d, p).parent, Without(NodeOf(d, p).children, e.name))
    && forall j: iptr :: j in live && j !in {p, e.inode} ==> SameView(d, d', j)
  }

  lemma RemovedOwners(d: Image, d': Image, live: set<nat>, p: iptr, e: Entry, live': set<nat>)
    requires Removed(d, d', live, p, e, live')
    ensures OwnMap(d', live') == OwnMap(d, live) - {e.inode}
  {
    OwnMapAfter(d, d', live, live', {p, e.inode});
  }

  lemma RemovedInDirs(d: Image, d': Image, live: set<nat>, p: iptr, e: Entry, live': set<nat>)
    requires Removed(d, d', live, p, e, live')
    ensures p in DirMap(d, live) && p in DirMap(d', live')
    ensures DirMap(d, live)[p] == NodeOf(d, p) && DirMap(d', live')[p] == NodeOf(d', p)
    ensures e.inode in DirMap(d, live) && e.inode !in DirMap(d', live')
  {
  }

  lemma RemovedDirs(d: Image, d': Image, live: set<nat>, p: iptr, e: Entry, live': set<nat>)
    requires Removed(d, d', live, p, e, live')
    ensures p in DirMap(d, live) && DirMap(d', live') == RemoveDir(DirMap(d, live), p, e)
  {
    RemovedInDirs(d, d', live, p, e, live');
    RemovedOthers(d, d', live, p, e, live');
    var a, b := DirMap(d', live'), DirMap(d, live);
    RemovedKeys(d, d', live, p, e, live');
    RemovedNodes(a, b, p, e);
  }

  lemma RemovedFile(d: Image, d': Image, live: set<nat>, p: iptr, e: Entry, live': set<nat>, j: iptr)
    requires Removed(d, d', live, p, e, live')
    ensures j in FileSet(d', live') <==> j in FileSet(d, live)
  {
    FileSetMember(d, live, j);
    FileSetMember(d', live', j);
    if j in live && j !in {p, e.inode} { SameKind(d, d', live, {p, e.inode}, j); }
  }

  lemma RemovedFiles(d: Image, d': Image, live: set<nat>, p: iptr, e: Entry, live': set<nat>)
    requires Removed(d, d', live, p, e, live')
    ensures FileSet(d', live') == FileSet(d, live)
  {
    forall j: iptr ensures j in FileSet(d', live') <==> j in FileSet(d, live) {
      RemovedFile(d, d', live, p, e, live', j);
    }
  }

  /** rmdir of an empty directory keeps the volume; its block and its inode are free again. */
  lemma RemovedKeepsVolume(d: Image, d': Image, live: set<nat>, used: set<nat>, p: iptr, e: Entry, live': set<nat>,
          used': set<nat>)
    requires VolumeOk(d, live, used) && Removed(d, d', live, p, e, live')
    requires e in NodeOf(d, p).children && IsDir(d, e.inode) && NodeOf(d, e.inode).children == []
    requires forall b: int :: b in used' <==> b in used && b !in OwnedSet(d, InodeAt(d, e.inode))
    ensures VolumeOk(d', live', used')
  {
    RemovedOwners(d, d', live, p, e, live');
    PartitionShrinks(OwnMap(d, live), used, e.inode, used');
    RemovedInDirs(d, d', live, p, e, live');
    RemovedDirs(d, d', live, p, e, live');
    RemovedFiles(d, d', live, p, e, live');
    RmdirKeepsTree(DirMap(d, live), FileSet(d, live), p, e);
  }
}
