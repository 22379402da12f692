/** Runs of calls: what holds in every state reached from a fresh volume. */
module Runs {
  import opened Params
  import opened Bitmap
  import opened Layout
  import opened BlockMap
  import opened Allocator
  import opened Dirent
  import opened Namespace
  import opened Volume
  import opened VolumeOps
  import opened OpenFile
  import opened Coherence
  import opened FileOps
  import opened DirOps
  import opened MetaOps
  import opened Steps
  import opened Paths
  import opened Walks
  import opened System
  import opened Format

  /** ss are the states between the calls ops. What a call does is only defined in a state that is in order;
      that every state of a run is one is the theorem below. */
  ghost predicate Run(ss: seq<Sys>, ops: seq<Op>) {
    && |ss| == |ops| + 1
    && forall k: nat :: k < |ops| && SysInv(ss[k]) ==> Step(ss[k], ops[k], ss[k + 1])
  }

  /** No descriptor in use, at the root. */
  predicate AtRest(s: Sys) {
    && |s.fds| == MAX_FD && 8 * |s.fdBm| == MAX_FD && s.cwd == INODE_ROOTDIR
    && (forall k :: 0 <= k < MAX_FD ==> s.fds[k].state == FD_FREE)
    && (forall k :: 0 <= k < |s.fdBm| ==> s.fdBm[k] == 0)
  }

  lemma RestIsOk(s: Sys)
    requires MetaOk(s.m) && AtRest(s) && INODE_ROOTDIR in Names(s.m)
    ensures SysInv(s)
  {
    hide AllOk, Partition, Tree, DirMap, FileSet, Flushed;
    ZeroBitmapIsEmpty(s.fdBm);
  }

  /** In every state of every run, the invariant holds. */
  lemma {:induction false} RunKeeps(ss: seq<Sys>, ops: seq<Op>, k: nat)
    requires Run(ss, ops) && SysInv(ss[0]) && k < |ss|
    ensures SysInv(ss[k])
  {
    hide SysInv, Step;
    if k > 0 {
      RunKeeps(ss, ops, k - 1);
      StepKeeps(ss[k - 1], ops[k - 1], ss[k]);
    }
  }

  /** Every state reached from the mount of an image in order by mkdir, rmdir, cd, creat, open, seek, read, write and
      close is in order. */
  lemma EveryRunFromMount(d: Image, ss: seq<Sys>, ops: seq<Op>)
    requires Mountable(d) && Run(ss, ops) && ss[0].m == Mounted(d) && AtRest(ss[0])
    ensures forall k: nat :: k < |ss| ==> SysInv(ss[k])
  {
    RootIsNamed(Mounted(d));
    hide MetaOk, SysInv, Step, Mounted;
    RestIsOk(ss[0]);
    forall k: nat | k < |ss| ensures SysInv(ss[k]) {
      RunKeeps(ss, ops, k);
    }
  }

  lemma RootIsNamed(m: Meta)
    requires MetaOk(m)
    ensures Sized(m) && AllOk(m.disk, Live(m)) && INODE_ROOTDIR in Names(m)
  {
    hide AllOk, Partition, DirMap, FileSet, Flushed;
    RootNamed(Names(m), FileSet(m.disk, Live(m)));
  }

  /** In particular every state reached from cnmkfs. */
  lemma EveryRunFromMkfs(d0: Image, bb: seq<bv8>, ib: seq<bv8>, d: Image, ss: seq<Sys>, ops: seq<Op>)
    requires MadeFs(d0, bb, ib, d) && Run(ss, ops) && Shape(d) && ss[0].m == Mounted(d) && AtRest(ss[0])
    ensures forall k: nat :: k < |ss| ==> SysInv(ss[k])
  {
    MkfsThenMount(d0, bb, ib, d);
    hide MadeFs, MetaOk, SysInv, Step, Mountable;
    EveryRunFromMount(d, ss, ops);
  }

  // ---- what the invariant says ----

  ghost predicate LiveOwns(m: Meta, i: nat, b: nat)
    requires Sized(m) && AllOk(m.disk, Live(m))
  {
    i in Live(m) && b in Owned(m.disk, InodeAt(m.disk, i))
  }

  /** The set bits of the block bitmap are exactly the 103 metadata blocks and the blocks that live inodes own,
      data and indirect ones alike, and no block has two owners. */
  lemma BlocksHaveOneOwner(s: Sys)
    requires SysInv(s)
    ensures forall b: nat :: b in Used(s.m) <==> b < BLOCKID_ROOT_DIR || exists i: nat :: LiveOwns(s.m, i, b)
    ensures forall i: nat, j: nat, b: nat :: LiveOwns(s.m, i, b) && LiveOwns(s.m, j, b) ==>
            i == j && b >= BLOCKID_ROOT_DIR
  {
    var own := OwnMap(s.m.disk, Live(s.m));
    forall i: nat, b: nat | LiveOwns(s.m, i, b) ensures i in own && b in own[i] {}
    forall i: nat, j: nat, b: nat | LiveOwns(s.m, i, b) && LiveOwns(s.m, j, b) ensures i == j && b >= BLOCKID_ROOT_DIR
      && b in Used(s.m) {
      OwnerInRange(own, Used(s.m), i, j, b);
    }
    forall b: nat | b in Used(s.m) && b >= BLOCKID_ROOT_DIR ensures exists i: nat :: LiveOwns(s.m, i, b) {
      var i := SomeOwner(own, Used(s.m), b);
      assert LiveOwns(s.m, i, b);
    }
  }

  lemma OwnerInRange(own: map<int, set<int>>, used: set<int>, i: int, j: int, b: int)
    requires Partition(own, used) && i in own && j in own && b in own[i] && b in own[j]
    ensures i == j && b in used && b >= BLOCKID_ROOT_DIR
  {
    OneOwner(own, used, i, j, b);
    var owner :| OwnedBy(own, used, owner);
    OwnerOf(own, used, owner, i, b);
  }

  /** Every live inode is a directory of the tree or a file of it, never both; "." of each directory is itself,
      and its ".." is a directory. */
  lemma DotsAreRight(s: Sys)
    requires SysInv(s)
    ensures forall i: nat :: i in Live(s.m) ==> i < TWO32 && (i in Names(s.m) <==> i !in FileSet(s.m.disk, Live(s.m)))
    ensures forall p: iptr :: p in Names(s.m) ==>
              && EntriesOf(s.m.disk, p)[..2] == DotEntries(p, Names(s.m)[p].parent)
              && Names(s.m)[p].parent in Names(s.m)
  {
    hide FdsOk, Partition, Tree, Flushed;
    forall i: nat | i in Live(s.m) ensures i < TWO32 && (i in Names(s.m) <==> i !in FileSet(s.m.disk, Live(s.m))) {
      LiveIsNamed(s.m, i);
    }
    ParentsLive(Names(s.m), FileSet(s.m.disk, Live(s.m)));
    forall p: iptr | p in Names(s.m) ensures EntriesOf(s.m.disk, p)[..2] == DotEntries(p, Names(s.m)[p].parent) {
      InTree(s.m, p);
      EntriesAre(s.m.disk, p);
    }
  }

  lemma LiveIsNamed(m: Meta, i: nat)
    requires MetaOk(m) && i in Live(m)
    ensures i < INODE_COUNT && (i in Names(m) <==> i !in FileSet(m.disk, Live(m)))
  {
    hide Tree, Partition, Flushed;
    assert i < INODE_COUNT && InodeOk(m.disk, i);
    DirMapMember(m.disk, Live(m), i);
    FileSetMember(m.disk, Live(m), i);
  }

  /** Every live inode but the root has exactly one entry in the whole volume, and a directory's entry stands in
      the directory its ".." names. */
  lemma ListedExactlyOnce(s: Sys, i: iptr) returns (p: iptr, e: Entry)
    requires SysInv(s) && i in Live(s.m) && i != INODE_ROOTDIR
    ensures Lists(Names(s.m), p, e) && e.inode == i
    ensures forall q, f :: Lists(Names(s.m), q, f) && f.inode == i ==> q == p && f == e
    ensures i in Names(s.m) ==> Names(s.m)[i].parent == p
  {
    LiveIsNamed(s.m, i);
    hide AllOk, FdsOk, Partition, Tree, Flushed, DirMap, FileSet;
    var nodes, files := Names(s.m), FileSet(s.m.disk, Live(s.m));
    p, e := EveryInodeListed(nodes, files, i);
    forall q, f | Lists(nodes, q, f) && f.inode == i ensures q == p && f == e {
      OneEntryEach(nodes, files, p, e, q, f);
    }
  }

  /** Following ".." from any directory reaches inode 0 in finitely many steps. */
  lemma DotDotEndsAtRoot(s: Sys, p: iptr)
    requires SysInv(s) && p in Names(s.m)
    ensures forall x :: x in Names(s.m) ==> Names(s.m)[x].parent in Names(s.m)
    ensures exists n: nat :: Up(Names(s.m), p, n) == INODE_ROOTDIR
  {
    hide AllOk, FdsOk, Partition, Tree, Flushed, DirMap, FileSet;
    DotDotReachesRoot(Names(s.m), FileSet(s.m.disk, Live(s.m)), p);
  }

  /** Size arithmetic: for every descriptor in use, blocks follow from the size, the cache holds exactly the
      blocks, and the cursor lies inside. */
  lemma DescriptorsFitTheirFiles(s: Sys, k: nat)
    requires SysInv(s) && k < MAX_FD && InUse(s.fds[k])
    ensures var f := s.fds[k];
            && (f.inode.blocks == 0 <==> f.inode.size == 0)
            && (f.inode.size > 0 ==> f.inode.blocks == f.inode.size / BLOCK_SIZE + 1)
            && |f.data| == BLOCK_SIZE * f.inode.blocks && f.cursor <= f.inode.size <= |f.data|
            && f.inode.blocks <= MAX_BLOCKS && WellMapped(s.m.disk, f.inode)
  {
    hide AllOk, Partition, Tree, DirMap, FileSet, Flushed;
    FdMapped(s.m, s.fds[k]);
  }

  /** A positive counter means that reserving hands out an id that was clear, the least one, below the limit. */
  lemma ReservationsStayInRange(s: Sys)
    requires SysInv(s)
    ensures s.m.super.freeBlocks + |Used(s.m)| == BD_SIZE_BLOCKS && s.m.super.freeInodes + |Live(s.m)| == INODE_COUNT
    ensures s.m.super.freeBlocks > 0 ==>
            var b := ReserveBlock(s.m).1; b < BD_SIZE_BLOCKS && LeastFree(b, Used(s.m)) && DataBlock(b)
    ensures s.m.super.freeInodes > 0 ==>
            var i := ReserveInode(s.m).1; i < INODE_COUNT && LeastFree(i, Live(s.m)) && i != INODE_ROOTDIR
  {
    if s.m.super.freeBlocks > 0 { ReserveBlockOk(s.m); }
    if s.m.super.freeInodes > 0 { ReserveInodeOk(s.m); }
  }

  // ---- mkdir, then rmdir ----

  /** A call of cnmkdir whose last name is new, a cncd by any path into the directory where it worked, then a call of
      cnrmdir with that name: the last finds what the first made, removes it, and the names, both bitmaps bit for bit
      and the superblock are as before. Throughout, every other directory lists and every file holds what it did. */
  lemma MkdirThenRmdirRestores(s: Sys, path: Path, t: Sys, there: Path, u: Sys, v: Sys)
    requires SysInv(s) && path.comps != [] && MkdirStep(s, path, t)
    requires Lookup(Names(s.m), MkdirWalk(Names(s.m), s.cwd, Via(path)), Last(path)).None?
    requires SysInv(t) && CdStep(t, there, u) && u.cwd == MkdirWalk(Names(s.m), s.cwd, Via(path))
    requires SysInv(u) && RmdirStep(u, Last(path), v)
    ensures SysInv(v) && v == s.(m := v.m, cwd := u.cwd)
    ensures Names(v.m) == Names(s.m) && FileSet(v.m.disk, Live(v.m)) == FileSet(s.m.disk, Live(s.m))
    ensures v.m.blockBm == s.m.blockBm && v.m.inodeBm == s.m.inodeBm && v.m.super == s.m.super
    ensures forall j: iptr :: j in Live(s.m) && j != u.cwd ==>
              SameView(s.m.disk, t.m.disk, j) && SameView(t.m.disk, v.m.disk, j)
  {
    hide SysInv, MkdirStep, CdStep, RmdirStep, DirMade, MetaOk, SameView, Lookup, MkdirWalk, FreshName, AllOk, DirMap,
         FileSet;
    var e, nb := MkdirThere(s, path, t);
    CdMovesOnly(t, there, u);
    RmdirOfMade(s.m, e, nb, u, v);
    RmdirKeeps(u, Last(path), v);
  }

  lemma CdMovesOnly(s: Sys, path: Path, t: Sys)
    requires SysInv(s) && CdStep(s, path, t)
    ensures t == s.(cwd := t.cwd)
  {
    hide SysInv, Reach;
  }

  /** cnrmdir of a directory that cnmkdir has just made in the current directory. */
  lemma RmdirOfMade(m: Meta, e: Entry, nb: iptr, s: Sys, t: Sys)
    requires DirMade(m, s.m, s.cwd, e, nb) && s.cwd < INODE_COUNT && FreshName(Names(m), s.cwd, e.name)
    requires SysInv(s) && RmdirStep(s, e.name, t)
    ensures t == s.(m := t.m) && MetaOk(t.m)
    ensures Names(t.m) == Names(m) && FileSet(t.m.disk, Live(t.m)) == FileSet(m.disk, Live(m))
    ensures t.m.blockBm == m.blockBm && t.m.inodeBm == m.inodeBm && t.m.super == m.super
    ensures forall j: iptr :: j in Live(m) && j != s.cwd ==>
            SameView(m.disk, s.m.disk, j) && SameView(s.m.disk, t.m.disk, j)
  {
    hide AllOk, DirMap, Partition, Tree, FileSet, Flushed, FdsOk, Lookup, DirMade, DirGone, SameView, RmdirSteps;
    MadeCanGo(m, s.m, s.cwd, e, nb);
    MadeIsListed(m, s.m, s.cwd, e, nb);
    RmdirRemovesIt(s.m, s.cwd, e, t.m);
    GoneOk(s.m, t.m, s.cwd, e);
    MkdirThenRmdir(m, s.cwd, e, nb, s.m, t.m);
  }

  lemma GoneOk(m: Meta, r: Meta, p: iptr, e: Entry)
    requires DirGone(m, r, p, e)
    ensures MetaOk(r)
  {
  }

  /** cnmkdir of a new name makes that directory where the intermediate components lead. */
  lemma MkdirThere(s: Sys, path: Path, t: Sys) returns (e: Entry, nb: iptr)
    requires SysInv(s) && MkdirStep(s, path, t)
    requires Lookup(Names(s.m), MkdirWalk(Names(s.m), s.cwd, Via(path)), Last(path)).None?
    ensures var p := MkdirWalk(Names(s.m), s.cwd, Via(path));
            p < INODE_COUNT && FreshName(Names(s.m), p, Last(path)) && e.name == Last(path)
              && DirMade(s.m, t.m, p, e, nb)
    ensures t == s.(m := t.m)
  {
    hide AllOk, DirMap, Partition, Tree, FileSet, Flushed, FdsOk, Lookup, DirMade, MkdirSteps, MkdirWalk, MkdirOnlyDirs;
    var p := MkdirWalk(Names(s.m), s.cwd, Via(path));
    var m1, i, m3, b :| MkdirSteps(s.m, p, Last(path), m1, i, m3, b, t.m);
    e, nb := Entry(i, ITYPE_DIR, Last(path)), b;
    MkdirMakes(s.m, p, Last(path), m1, i, m3, nb, t.m);
  }

  lemma MadeIsListed(m: Meta, r: Meta, p: iptr, e: Entry, nb: iptr)
    requires DirMade(m, r, p, e, nb) && FreshName(Names(m), p, e.name) && e.inode != p
    ensures p in Names(r) && Lookup(Names(r), p, e.name) == Some(e)
    ensures e.inode in Names(r) && Names(r)[e.inode].children == []
  {
    hide AllOk, DirMap, Partition, Tree, FileSet, SameView;
    FoundAfterAdding(Names(m), p, e, Names(r));
  }

  // ---- bytes that stay on the disk ----

  /** The call writes or grows file i. */
  predicate Touches(s: Sys, op: Op, i: iptr) {
    match op
    case Write(k, buf) => k < |s.fds| && s.fds[k].state == FD_WRITE && s.fds[k].inodeId == i
    case Seek(k, offset) => k < |s.fds| && s.fds[k].inodeId == i && s.fds[k].inode.size < s.fds[k].cursor + offset
    case _ => false
  }

  /** File i of s is file i of t, byte for byte and block for block. */
  ghost predicate FileKept(s: Sys, t: Sys, i: iptr) {
    Sized(s.m) && Sized(t.m) && i in Live(t.m) && SameView(s.m.disk, t.m.disk, i)
  }

  lemma KeptItself(s: Sys, t: Sys, i: iptr)
    requires MetaOk(s.m) && i in Live(s.m) && t.m == s.m
    ensures FileKept(s, t, i)
  {
    hide SameView, Partition, Tree;
    SameViewRefl(s.m.disk, Live(s.m));
  }

  lemma SameVolumeKeepsFile(s: Sys, t: Sys, i: iptr)
    requires SysInv(s) && IsFile(s.m, i) && t.m == s.m
    ensures FileKept(s, t, i)
  {
    hide FileKept, FdsOk;
    KeptItself(s, t, i);
  }

  lemma IsLive(m: Meta, i: iptr)
    requires IsFile(m, i)
    ensures i in Live(m)
  {
  }

  /** A file is not a directory of the tree. */
  lemma NotNamed(m: Meta, i: iptr)
    requires IsFile(m, i)
    ensures i !in Names(m) && i in Live(m)
  {
    hide AllOk, Partition, Tree;
    DirMapMember(m.disk, Live(m), i);
  }

  lemma MkdirKeepsFile(s: Sys, path: Path, t: Sys, i: iptr)
    requires SysInv(s) && MkdirStep(s, path, t) && IsFile(s.m, i)
    ensures FileKept(s, t, i)
  {
    hide AllOk, DirMap, Partition, Tree, FileSet, Flushed, FdsOk, MkdirSteps, IsFile, Lookup, MkdirWalk, MkdirOnlyDirs,
         CanMkdir, DirMade, FileKept;
    var p, name := MkdirWalk(Names(s.m), s.cwd, Via(path)), Last(path);
    if Lookup(Names(s.m), p, name).None? {
      var m1, j, m3, nb :| MkdirSteps(s.m, p, name, m1, j, m3, nb, t.m);
      MkdirMakes(s.m, p, name, m1, j, m3, nb, t.m);
      MadeKeepsFile(s, t, i, p, Entry(j, ITYPE_DIR, name), nb);
    } else {
      SameVolumeKeepsFile(s, t, i);
    }
  }

  lemma MadeKeepsFile(s: Sys, t: Sys, i: iptr, p: iptr, e: Entry, nb: iptr)
    requires DirMade(s.m, t.m, p, e, nb) && IsFile(s.m, i)
    ensures FileKept(s, t, i)
  {
    hide AllOk, DirMap, Partition, Tree, SameView, Flushed;
    NotNamed(s.m, i);
  }

  lemma CreatKeepsFile(s: Sys, p: iptr, name: Name, t: Sys, i: iptr)
    requires SysInv(s) && CreatStep(s, p, name, t) && IsFile(s.m, i)
    ensures FileKept(s, t, i)
  {
    hide AllOk, InodeOk, SameView, Partition, Tree, DirMap, FileSet, Flushed, CreatSteps, FdsOk, IsFile, Lookup;
    NotNamed(s.m, i);
    if Lookup(Names(s.m), p, name).None? {
      var m1, j :| CreatSteps(s.m, p, name, m1, j, t.m);
      CreatMakes(s.m, p, name, m1, j, t.m);
    } else {
      KeptItself(s, t, i);
    }
  }

  lemma RmdirKeepsFile(s: Sys, name: Name, t: Sys, i: iptr)
    requires SysInv(s) && RmdirStep(s, name, t) && IsFile(s.m, i)
    ensures FileKept(s, t, i)
  {
    hide AllOk, InodeOk, SameView, Partition, Tree, DirMap, FileSet, Flushed, RmdirSteps, FdsOk, IsFile, Lookup;
    NotNamed(s.m, i);
    var found := Lookup(Names(s.m), s.cwd, name);
    if found.Some? && Names(s.m)[found.value.inode].children == [] {
      FoundCanGo(s, name);
      RmdirRemovesIt(s.m, s.cwd, found.value, t.m);
    } else {
      KeptItself(s, t, i);
    }
  }

  lemma OpenKeepsFile(s: Sys, p: iptr, name: Name, mode: nat, t: Sys, i: iptr)
    requires SysInv(s) && OpenStep(s, p, name, mode, t) && IsFile(s.m, i)
    ensures FileKept(s, t, i)
  {
    hide AllOk, InodeOk, SameView, Partition, Tree, DirMap, FileSet, Flushed, CreatSteps, FdsOk, IsFile, Lookup,
         CanCreat;
    NotNamed(s.m, i);
    if Lookup(Names(s.m), p, name).None? && mode == FD_WRITE {
      var m1, j :| Sized(t.m) && CreatSteps(s.m, p, name, m1, j, t.m);
      CreatMakes(s.m, p, name, m1, j, t.m);
    } else {
      KeptItself(s, t, i);
    }
  }

  lemma OthersKeptFile(s: Sys, t: Sys, i: iptr, j: iptr)
    requires OthersKept(s.m, t.m, j) && i in Live(s.m) && i != j
    ensures FileKept(s, t, i)
  {
    hide SameView, Partition, Tree, AllOk;
  }

  lemma SeekKeepsFile(s: Sys, k: nat, offset: nat, t: Sys, i: iptr)
    requires SysInv(s) && SeekStep(s, k, offset, t) && IsFile(s.m, i) && !Touches(s, Seek(k, offset), i)
    ensures FileKept(s, t, i)
  {
    hide SysInv, OthersKept, FileKept, IsFile, Sought, Resized, Room;
    IsLive(s.m, i);
    SeekKeeps(s, k, offset, t);
    if s.fds[k].inodeId != i {
      OthersKeptFile(s, t, i, s.fds[k].inodeId);
    } else {
      var f1 :| Resized(s.m, s.fds[k], s.fds[k].cursor + offset, t.m, f1);
      NotResized(s.m, s.fds[k], s.fds[k].cursor + offset, t.m, f1);
      SameVolumeKeepsFile(s, t, i);
    }
  }

  lemma NotResized(m: Meta, f: FdEntry, required: nat, r: Meta, f': FdEntry)
    requires Resized(m, f, required, r, f') && required <= f.inode.size
    ensures r == m && f' == f
  {
  }

  lemma WriteKeepsFile(s: Sys, k: nat, buf: seq<byte>, t: Sys, i: iptr)
    requires SysInv(s) && WriteStep(s, k, buf, t) && IsFile(s.m, i) && !Touches(s, Write(k, buf), i)
    ensures FileKept(s, t, i)
  {
    hide SysInv, OthersKept, FileKept, IsFile, Written, Resized, Room, PutThrough;
    IsLive(s.m, i);
    WriteKeeps(s, k, buf, t);
    if s.fds[k].state == FD_WRITE {
      OthersKeptFile(s, t, i, s.fds[k].inodeId);
    } else {
      SameVolumeKeepsFile(s, t, i);
    }
  }

  /** A call leaves every file alone that it does not write or grow. */
  lemma StepKeepsFile(s: Sys, op: Op, t: Sys, i: iptr)
    requires SysInv(s) && Step(s, op, t) && IsFile(s.m, i) && !Touches(s, op, i)
    ensures FileKept(s, t, i)
  {
    hide SysInv, FileKept, IsFile, MkdirStep, RmdirStep, CreatStep, OpenStep, SeekStep, WriteStep, OpenPath, Touches;
    match op
    case Mkdir(path) => MkdirKeepsFile(s, path, t, i);
    case Rmdir(name) => RmdirKeepsFile(s, name, t, i);
    case Cd(path) => SameVolumeKeepsFile(s, t, i);
    case Creat(p, name) => CreatKeepsFile(s, p, name, t, i);
    case Open(p, name, mode) => OpenKeepsFile(s, p, name, mode, t, i);
    case Close(fd) => SameVolumeKeepsFile(s, t, i);
    case Read(fd, bytes) => SameVolumeKeepsFile(s, t, i);
    case Seek(fd, offset) => SeekKeepsFile(s, fd, offset, t, i);
    case Write(fd, buf) => WriteKeepsFile(s, fd, buf, t, i);
  }

  lemma KeptIsFile(s: Sys, t: Sys, i: iptr)
    requires FileKept(s, t, i) && IsFile(s.m, i) && SysInv(t)
    ensures IsFile(t.m, i)
  {
    hide MetaOk, FdsOk;
  }

  lemma KeptTwice(s: Sys, t: Sys, u: Sys, i: iptr)
    requires FileKept(s, t, i) && FileKept(t, u, i)
    ensures FileKept(s, u, i)
  {
    SameViewTrans(s.m.disk, t.m.disk, u.m.disk, i);
  }

  lemma {:induction false} RunKeepsFile(ss: seq<Sys>, ops: seq<Op>, i: iptr, k: nat)
    requires Run(ss, ops) && SysInv(ss[0]) && IsFile(ss[0].m, i) && k < |ss|
    requires forall j: nat :: j < k ==> !Touches(ss[j], ops[j], i)
    ensures FileKept(ss[0], ss[k], i) && SysInv(ss[k]) && IsFile(ss[k].m, i)
  {
    hide SysInv, IsFile, Touches, FileKept, Step;
    RunKeeps(ss, ops, k);
    if k == 0 {
      SameVolumeKeepsFile(ss[0], ss[0], i);
    } else {
      RunKeepsFile(ss, ops, i, k - 1);
      StepKeepsFile(ss[k - 1], ops[k - 1], ss[k], i);
      KeptTwice(ss[0], ss[k - 1], ss[k], i);
      KeptIsFile(ss[0], ss[k], i);
    }
  }

  /** What was written stays: from a moment when a descriptor's cache and the disk agree (as after every cnwrite),
      whatever calls follow that do not write or grow that file, opening it again shows the same bytes. */
  lemma ReopenedLater(ss: seq<Sys>, ops: seq<Op>, f: FdEntry, k: nat, mode: nat)
    requires Run(ss, ops) && SysInv(ss[0]) && k < |ss|
    requires IsFile(ss[0].m, f.inodeId) && FdOk(ss[0].m, f) && Coherent(ss[0].m, f)
    requires forall j: nat :: j < k ==> !Touches(ss[j], ops[j], f.inodeId)
    ensures IsFile(ss[k].m, f.inodeId) && f.inode.size <= |f.data|
    ensures Shape(ss[k].m.disk) && Mapped(InodeAt(ss[k].m.disk, f.inodeId))
            && InData(BlockList(ss[k].m.disk, InodeAt(ss[k].m.disk, f.inodeId)))
    ensures FdOk(ss[k].m, Opened(ss[k].m, f.inodeId, mode)) && Text(Opened(ss[k].m, f.inodeId, mode)) == Text(f)
  {
    RunKeepsFile(ss, ops, f.inodeId, k);
    hide Run, SysInv, IsFile, MetaOk, Touches, SameView, FdOk, Coherent, Opened;
    DescriptorKept(ss[0].m, ss[k].m, f);
    ReopenReadsBack(ss[k].m, f, mode);
  }
}
