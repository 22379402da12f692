/** What each call comes to, in names, bytes, bits and descriptors alone, whatever the steps that lead there. */
module Outcomes {
  import opened Params
  import opened Bitmap
  import opened Layout
  import opened BlockMap
  import opened Allocator
  import opened Dirent
  import opened Namespace
  import opened Volume
  import opened VolumeOps
  import opened OpenFile
  import opened FileOps
  import opened ReadOps
  import opened Coherence
  import opened DirOps
  import opened MetaOps
  import opened Steps
  import opened Paths
  import opened Walks
  import opened System
  import opened Format
  import opened Runs
  import opened Calls

  /** What stays of an inode that is intact: the inode, its list of blocks, its bytes, and of a directory the entries.
      */
  lemma IntactMeans(d: Image, e: Image, j: iptr)
    requires Shape(d) && Shape(e) && SameView(d, e, j)
    ensures j < INODE_COUNT && InodeAt(e, j) == InodeAt(d, j) && Mapped(InodeAt(d, j))
    ensures BlockList(e, InodeAt(e, j)) == BlockList(d, InodeAt(d, j)) && InData(BlockList(d, InodeAt(d, j)))
    ensures Load(e, InodeAt(e, j)) == Load(d, InodeAt(d, j))
    ensures IsDir(d, j) ==> IsDir(e, j) && NodeOf(e, j) == NodeOf(d, j)
  {
  }

  // ---- paths ----

  /** The components before the last one, and the last one, are all of them. */
  lemma ViaAndLast(path: Path)
    requires path.comps != []
    ensures Via(path) + [Last(path)] == path.comps
  {
  }

  // ---- cd ----

  /** A path that names a directory names only directories. */
  lemma NamedIsDirs(nodes: Nodes, d: iptr, comps: seq<Name>)
    requires d in nodes && Resolve(nodes, d, comps).Some?
    ensures OnlyDirs(nodes, d, comps)
  {
    if !OnlyDirs(nodes, d, comps) { FileEndsFold(nodes, d, comps); }
  }

  /** cncd into the directory that the path names; nowhere when the first component is missing. */
  lemma CdOutcome(s: Sys, path: Path, t: Sys)
    requires SysInv(s) && CdCode(s, path, t)
    ensures Start(s.cwd, path) in Names(s.m) && Start(s.cwd, path) == if path.absolute then INODE_ROOTDIR else s.cwd
    ensures var nodes, start := Names(s.m), Start(s.cwd, path);
            match Resolve(nodes, start, path.comps)
            case Some(d) => t == s.(cwd := d)
            case None => path.comps != [] && (Lookup(nodes, start, path.comps[0]).None? ==> t == s)
  {
    CdFacts(s);
    var nodes, start := Names(s.m), Start(s.cwd, path);
    hide SysInv, MetaOk, AllOk, DirMap, Reach, Follow, OnlyDirs, Resolve, Lookup, OpenPath, FirstFile, Child, IsFile;
    LandsOnDirectory(s.m, s.cwd, path);
    ResolveNothing(nodes, start);
    if Resolve(nodes, start, path.comps).Some? {
      NamedIsDirs(nodes, start, path.comps);
      OpenPathIsFold(nodes, s.cwd, path);
    } else if Lookup(nodes, start, path.comps[0]).None? {
      FirstMissing(nodes, s.cwd, path);
    }
  }

  lemma FirstMissing(nodes: Nodes, cwd: iptr, path: Path)
    requires cwd in nodes && INODE_ROOTDIR in nodes && path.comps != []
    requires Lookup(nodes, Start(cwd, path), path.comps[0]).None?
    ensures OnlyDirs(nodes, Start(cwd, path), path.comps) && OpenPath(nodes, cwd, path).None?
  {
  }

  /** cncd when a later component is missing: into the directory that the components before it name. */
  lemma CdDeepest(s: Sys, path: Path, t: Sys) returns (k: nat)
    requires SysInv(s) && CdCode(s, path, t) && Start(s.cwd, path) in Names(s.m)
    requires OnlyDirs(Names(s.m), Start(s.cwd, path), path.comps)
    requires Resolve(Names(s.m), Start(s.cwd, path), path.comps).None?
    requires path.comps != [] && Lookup(Names(s.m), Start(s.cwd, path), path.comps[0]).Some?
    ensures 1 <= k < |path.comps| && t == s.(cwd := t.cwd) && t.cwd in Names(s.m)
    ensures Resolve(Names(s.m), Start(s.cwd, path), path.comps[..k]) == Some(t.cwd)
    ensures Lookup(Names(s.m), t.cwd, path.comps[k]).None?
  {
    CdFacts(s);
    var nodes, start := Names(s.m), Start(s.cwd, path);
    FirstIsDirectory(nodes, start, path.comps);
    hide SysInv, MetaOk, AllOk, DirMap, Reach, Follow, Resolve, Lookup, OpenPath, FirstFile, Child, IsFile;
    LandsOnDirectory(s.m, s.cwd, path);
    k := OpenPathDeepest(nodes, s.cwd, path);
    DirsOnTheWay(nodes, start, path.comps, k);
  }

  /** All of it: where cncd leads, along directories. */
  lemma CdLeads(s: Sys, path: Path, t: Sys)
    requires SysInv(s) && CdCode(s, path, t)
    ensures var start := if path.absolute then INODE_ROOTDIR else s.cwd;
            && start in Names(s.m)
            && match Resolve(Names(s.m), start, path.comps)
               case Some(d) => Reach(s.m.disk, start, path.comps).At? && t.cwd == d
               case None =>
                 && path.comps != []
                 && (Lookup(Names(s.m), start, path.comps[0]).None? ==>
                       Reach(s.m.disk, start, path.comps).Nowhere? && t.cwd == s.cwd)
                 && (Lookup(Names(s.m), start, path.comps[0]).Some? && OnlyDirs(Names(s.m), start, path.comps) ==>
                       && Reach(s.m.disk, start, path.comps).At? && t.cwd in Names(s.m)
                       && exists k :: 1 <= k < |path.comps| && Lookup(Names(s.m), t.cwd, path.comps[k]).None?
                                      && Resolve(Names(s.m), start, path.comps[..k]) == Some(t.cwd))
  {
    CdOutcome(s, path, t);
    CdFacts(s);
    CdReaches(s, path);
    hide SysInv, MetaOk, AllOk, DirMap, Reach, OnlyDirs, Resolve, Lookup, CdCode;
    var start := Start(s.cwd, path);
    if Resolve(Names(s.m), start, path.comps).None? && Lookup(Names(s.m), start, path.comps[0]).Some?
       && OnlyDirs(Names(s.m), start, path.comps) {
      var k := CdDeepest(s, path, t);
    }
  }

  /** The walk has an end where a directory is named, and nowhere when the first component is missing. */
  lemma CdReaches(s: Sys, path: Path)
    requires SysInv(s)
    ensures Start(s.cwd, path) in Names(s.m) && INODE_ROOTDIR in Names(s.m)
    ensures var nodes, start := Names(s.m), Start(s.cwd, path);
            OnlyDirs(nodes, start, path.comps) ==>
              if path.comps != [] && Lookup(nodes, start, path.comps[0]).None?
              then Reach(s.m.disk, start, path.comps).Nowhere? else Reach(s.m.disk, start, path.comps).At?
    ensures var nodes, start := Names(s.m), Start(s.cwd, path);
            (Resolve(nodes, start, path.comps).Some? ==>
               OnlyDirs(nodes, start, path.comps)
               && (path.comps != [] ==> Lookup(nodes, start, path.comps[0]).Some?))
            && (path.comps != [] && Lookup(nodes, start, path.comps[0]).None? ==> OnlyDirs(nodes, start, path.comps))
  {
    CdFacts(s);
    hide SysInv, MetaOk, AllOk, DirMap, Reach, Follow, IsFile, FirstFile, OnlyDirs, Resolve, Lookup, OpenPath;
    LandsOnDirectory(s.m, s.cwd, path);
    PathSide(Names(s.m), s.cwd, path);
  }

  lemma PathSide(nodes: Nodes, cwd: iptr, path: Path)
    requires cwd in nodes && INODE_ROOTDIR in nodes
    ensures var start := Start(cwd, path);
            && (Resolve(nodes, start, path.comps).Some? ==>
                  && OnlyDirs(nodes, start, path.comps)
                  && (path.comps != [] ==> Lookup(nodes, start, path.comps[0]).Some?))
            && (path.comps != [] && Lookup(nodes, start, path.comps[0]).None? ==> OnlyDirs(nodes, start, path.comps))
            && (OnlyDirs(nodes, start, path.comps) ==>
                  (OpenPath(nodes, cwd, path).None? <==>
                     path.comps != [] && Lookup(nodes, start, path.comps[0]).None?))
  {
    if Resolve(nodes, Start(cwd, path), path.comps).Some? { NamedIsDirs(nodes, Start(cwd, path), path.comps); }
  }

  /** Along directories a component that leads to no directory is missing. */
  lemma {:induction false} DirsOnTheWay(nodes: Nodes, d: iptr, comps: seq<Name>, k: nat)
    requires d in nodes && OnlyDirs(nodes, d, comps) && k < |comps| && Resolve(nodes, d, comps[..k]).Some?
    requires Child(nodes, Resolve(nodes, d, comps[..k]).value, comps[k]).None?
    ensures Lookup(nodes, Resolve(nodes, d, comps[..k]).value, comps[k]).None?
    decreases |comps|
  {
    if k > 0 {
      assert comps[..k][1..] == comps[1..][..k - 1];
      DirsOnTheWay(nodes, Child(nodes, d, comps[0]).value, comps[1..], k - 1);
    }
  }

  // ---- open and close ----

  /** The least free descriptor comes to hold the whole file; no other one changes. */
  lemma FdOutcome(s: Sys, i: iptr, mode: nat, t: Sys)
    requires Sized(s.m) && FdsOk(s.m, s.fds, s.fdBm) && FdOpened(s, i, mode, t)
    ensures var k := FirstFree(s.fdBm);
            && k < |s.fds| && s.fds[k].state == FD_FREE && (forall j :: 0 <= j < k ==> s.fds[j].state != FD_FREE)
            && i < INODE_COUNT && Mapped(InodeAt(s.m.disk, i)) && InData(BlockList(s.m.disk, InodeAt(s.m.disk, i)))
            && t.fds == s.fds[k := FdEntry(mode, i, InodeAt(s.m.disk, i), 0, Load(s.m.disk, InodeAt(s.m.disk, i)))]
            && Bits(t.fdBm) == Bits(s.fdBm) + {k} && t.m == s.m && t.cwd == s.cwd
  {
    hide Load, BlockList, NoneOpen, FdOk;
    FirstFreeIsLeastAbsent(s.fdBm);
    BitsMembers(s.fdBm);
    SetBitIsInsert(s.fdBm, FirstFree(s.fdBm));
  }

  /** cnopen of a name that is there. */
  lemma OpenOldOutcome(s: Sys, p: iptr, name: Name, mode: nat, fd: int, t: Sys)
    requires SysInv(s) && OpenEnds(s, p, name, mode, fd, t) && Lookup(Names(s.m), p, name).Some?
    ensures p in Names(s.m) && FdOpened(s, Lookup(Names(s.m), p, name).value.inode, mode, t)
    ensures Sized(s.m) && FdsOk(s.m, s.fds, s.fdBm) && fd == FirstFree(s.fdBm) && t.m == s.m
  {
    hide AllOk, DirMap, FdsOk, Lookup, FirstFree, NoneOpen, Load, BlockList;
  }

  /** cnopen of a new name. */
  lemma OpenNewOutcome(s: Sys, p: iptr, name: Name, mode: nat, fd: int, t: Sys) returns (i: iptr)
    requires SysInv(s) && OpenEnds(s, p, name, mode, fd, t) && Lookup(Names(s.m), p, name).None? && mode == FD_WRITE
    ensures Sized(t.m) && FdsOk(t.m, s.fds, s.fdBm) && fd == FirstFree(s.fdBm) && FdOpened(s.(m := t.m), i, mode, t)
    ensures p in Names(s.m) && FreshName(Names(s.m), p, name) && FileMade(s.m, t.m, p, Entry(i, ITYPE_FILE, name))
  {
    hide AllOk, DirMap, FdsOk, Lookup, FirstFree, FdOpened, CreatSteps, FileMade, Fits, Counted, Flushed, VolumeOk;
    var m1, j :| Sized(t.m) && CreatSteps(s.m, p, name, m1, j, t.m) && FdOpened(s.(m := t.m), j, mode, t);
    i := j;
    CreatMakes(s.m, p, name, m1, i, t.m);
    FileMadeKeepsFds(s, s.(m := t.m), p, Entry(i, ITYPE_FILE, name));
  }

  /** The file that was made is what its name denotes, and the directory lists it last. */
  lemma FileOutcome(m: Meta, p: iptr, name: Name, i: iptr, r: Meta)
    requires FileMade(m, r, p, Entry(i, ITYPE_FILE, name)) && p in Names(m) && FreshName(Names(m), p, name)
    ensures MetaOk(r) && Sized(r) && AllOk(r.disk, Live(r)) && p in Names(r) && i < INODE_COUNT
    ensures Lookup(Names(r), p, name) == Some(Entry(i, ITYPE_FILE, name))
    ensures Names(r) == Names(m)[p := Names(m)[p].(children := Names(m)[p].children + [Entry(i, ITYPE_FILE, name)])]
    ensures InodeAt(r.disk, i) == Inode(ITYPE_FILE, 0, 0, [0, 0, 0, 0, 0, 0, 0, 0], 0, 0)
    ensures i !in Live(m) && (forall k: nat :: k < i ==> k in Live(m))
    ensures Live(r) == Live(m) + {i as nat} && Used(r) == Used(m)
    ensures Sized(m) && forall j: iptr :: j in Live(m) && j != p ==> SameView(m.disk, r.disk, j)
  {
    MadeIsFound(m, p, name, i, r);
    hide AllOk, Partition, Tree, DirMap, SameView, Lookup, FreshName;
  }

  /** The descriptor that cnopen hands out. */
  lemma OpenOutcome(s: Sys, p: iptr, name: Name, mode: nat, fd: int, t: Sys)
    requires SysInv(s) && OpenEnds(s, p, name, mode, fd, t)
    ensures p in Names(s.m) && t.cwd == s.cwd
    ensures fd < 0 <==> Lookup(Names(s.m), p, name).None? && mode != FD_WRITE
    ensures fd < 0 ==> fd == -1 && t == s
    ensures Lookup(Names(s.m), p, name).Some? ==> t.m == s.m
    ensures fd >= 0 ==>
              && Sized(t.m) && AllOk(t.m.disk, Live(t.m)) && p in Names(t.m) && Lookup(Names(t.m), p, name).Some?
              && var i := Lookup(Names(t.m), p, name).value.inode;
              && i < INODE_COUNT && Mapped(InodeAt(t.m.disk, i)) && InData(BlockList(t.m.disk, InodeAt(t.m.disk, i)))
              && fd < |s.fds|
              && t.fds == s.fds[fd := FdEntry(mode, i, InodeAt(t.m.disk, i), 0, Load(t.m.disk, InodeAt(t.m.disk, i)))]
    ensures fd >= 0 ==>
              && Bits(t.fdBm) == Bits(s.fdBm) + {fd as nat} && fd < |s.fds| && s.fds[fd].state == FD_FREE
              && forall k :: 0 <= k < fd ==> s.fds[k].state != FD_FREE
    ensures Lookup(Names(s.m), p, name).None? && fd >= 0 ==>
              && Lookup(Names(t.m), p, name).value.kind == ITYPE_FILE && Lookup(Names(t.m), p, name).value.name == name
              && Names(t.m) == Names(s.m)[p := Names(s.m)[p].(children :=
                   Names(s.m)[p].children + [Lookup(Names(t.m), p, name).value])]
              && InodeAt(t.m.disk, Lookup(Names(t.m), p, name).value.inode)
                 == Inode(ITYPE_FILE, 0, 0, [0, 0, 0, 0, 0, 0, 0, 0], 0, 0)
  {
    OpenKnows(s, p, name, mode, fd, t);
    hide SysInv, MetaOk, AllOk, DirMap, Lookup, FirstFree, OpenEnds, FdOpened, FileMade, FdsOk, FreshName, Load,
         BlockList, InData, Mapped, Sized;
    if Lookup(Names(s.m), p, name).Some? {
      OpenOldOutcome(s, p, name, mode, fd, t);
      FdOutcome(s, Lookup(Names(s.m), p, name).value.inode, mode, t);
    } else if mode == FD_WRITE {
      var i := OpenNewOutcome(s, p, name, mode, fd, t);
      FileOutcome(s.m, p, name, i, t.m);
      FdOutcome(s.(m := t.m), i, mode, t);
    }
  }

  lemma OpenKnows(s: Sys, p: iptr, name: Name, mode: nat, fd: int, t: Sys)
    requires SysInv(s) && OpenEnds(s, p, name, mode, fd, t)
    ensures Sized(s.m) && AllOk(s.m.disk, Live(s.m)) && p in Names(s.m)
    ensures Lookup(Names(s.m), p, name).None? && mode != FD_WRITE ==> fd == -1 && t == s
    ensures Lookup(Names(s.m), p, name).Some? || mode == FD_WRITE ==> fd == FirstFree(s.fdBm)
  {
    hide AllOk, DirMap, FdsOk, Lookup, FirstFree, FdOpened, CreatSteps, CanCreat;
  }

  /** cnclose frees its own descriptor and bit, and nothing else changes. */
  lemma CloseOutcome(s: Sys, k: nat, t: Sys)
    requires SysInv(s) && CloseStep(s, k, t)
    ensures k < |s.fds| && t.m == s.m && t.cwd == s.cwd
    ensures s.fds[k].state == FD_FREE ==> t == s
    ensures s.fds[k].state != FD_FREE ==>
              t.fds == s.fds[k := s.fds[k].(state := FD_FREE)] && Bits(t.fdBm) == Bits(s.fdBm) - {k}
  {
    hide SysInv;
    if InUse(s.fds[k]) { ClearBitIsRemove(s.fdBm, k); }
  }

  // ---- mkdir, creat and rmdir ----

  /** The directory that was made is what its name denotes; its parent lists it last. */
  lemma DirOutcome(m: Meta, p: iptr, e: Entry, nb: iptr, r: Meta)
    requires DirMade(m, r, p, e, nb) && p < INODE_COUNT && FreshName(Names(m), p, e.name)
    ensures MetaOk(r) && Sized(r) && AllOk(r.disk, Live(r)) && p in Names(m) && p in Names(r)
    ensures Lookup(Names(r), p, e.name) == Some(e) && e.kind == ITYPE_DIR
    ensures Names(r) == Names(m)[p := Names(m)[p].(children := Names(m)[p].children + [e])][e.inode := DirNode(p, [])]
    ensures e.inode !in Live(m) && (forall k: nat :: k < e.inode ==> k in Live(m))
    ensures Live(r) == Live(m) + {e.inode as nat}
    ensures nb !in Used(m) && (forall k: nat :: k < nb ==> k in Used(m)) && Used(r) == Used(m) + {nb as nat}
    ensures Sized(m) && forall j: iptr :: j in Live(m) && j != p ==> SameView(m.disk, r.disk, j)
  {
    MadeCanGo(m, r, p, e, nb);
    MadeIsListed(m, r, p, e, nb);
    hide AllOk, Partition, Tree, DirMap, SameView, Lookup, FreshName;
  }

  /** cnmkdir, on the components: the last one is made as a directory where the others lead, with the least free inode
      and the least free block, listed last and empty; or it is there already. */
  lemma MkdirOutcome(s: Sys, path: Path, rc: int, t: Sys)
    requires SysInv(s) && MkdirEnds(s, path, rc, t)
    ensures path.comps != [] && s.cwd in Names(s.m)
    ensures var n := |path.comps| - 1;
            var nodes, p, name := Names(s.m), MkdirWalk(Names(s.m), s.cwd, path.comps[..n]), path.comps[n];
            if Lookup(nodes, p, name).Some? then rc == -1 && t == s
            else
              && rc == 0 && t == s.(m := t.m) && Sized(t.m) && AllOk(t.m.disk, Live(t.m)) && p in Names(t.m)
              && Lookup(Names(t.m), p, name).Some?
              && var e := Lookup(Names(t.m), p, name).value;
              && e.name == name && e.kind == ITYPE_DIR
              && Names(t.m) == nodes[p := nodes[p].(children := nodes[p].children + [e])][e.inode := DirNode(p, [])]
              && e.inode !in Live(s.m) && (forall k: nat :: k < e.inode ==> k in Live(s.m))
              && Live(t.m) == Live(s.m) + {e.inode as nat}
              && (exists b: nat :: b !in Used(s.m) && (forall k: nat :: k < b ==> k in Used(s.m))
                                   && Used(t.m) == Used(s.m) + {b})
              && Sized(s.m) && forall j: iptr :: j in Live(s.m) && j != p ==> SameView(s.m.disk, t.m.disk, j)
  {
    MkdirKnows(s, path, rc, t);
    ViaAndLast(path);
    hide SysInv, MetaOk, AllOk, DirMap, Lookup, MkdirWalk, MkdirEnds, DirMade, FreshName, Sized, MkdirStep, SameView;
    var p, name := MkdirWalk(Names(s.m), s.cwd, Via(path)), Last(path);
    assert Via(path) == path.comps[..|path.comps| - 1] && name == path.comps[|path.comps| - 1];
    if Lookup(Names(s.m), p, name).None? {
      var e, nb := MkdirThere(s, path, t);
      DirOutcome(s.m, p, e, nb, t.m);
      assert nb !in Used(s.m) && Used(t.m) == Used(s.m) + {nb as nat};
    }
  }

  lemma MkdirKnows(s: Sys, path: Path, rc: int, t: Sys)
    requires SysInv(s) && MkdirEnds(s, path, rc, t)
    ensures path.comps != [] && s.cwd in Names(s.m) && MkdirStep(s, path, t)
    ensures var p := MkdirWalk(Names(s.m), s.cwd, Via(path));
            if Lookup(Names(s.m), p, Last(path)).Some? then rc == -1 && t == s else rc == 0 && t == s.(m := t.m)
  {
    hide AllOk, DirMap, FdsOk, Lookup, MkdirWalk, MkdirOnlyDirs, CanMkdir, MkdirSteps, DirMade, MetaOk;
  }

  /** cncreat: an empty file with the least free inode, listed last, or the name is there already. */
  lemma CreatOutcome(s: Sys, p: iptr, name: Name, rc: int, t: Sys)
    requires SysInv(s) && CreatEnds(s, p, name, rc, t)
    ensures p in Names(s.m)
    ensures if Lookup(Names(s.m), p, name).Some? then rc == -1 && t == s
            else
              && rc == 0 && t == s.(m := t.m) && Sized(t.m) && AllOk(t.m.disk, Live(t.m)) && p in Names(t.m)
              && Lookup(Names(t.m), p, name).Some?
              && var e := Lookup(Names(t.m), p, name).value;
              && e.name == name && e.kind == ITYPE_FILE && e.inode < INODE_COUNT
              && Names(t.m) == Names(s.m)[p := Names(s.m)[p].(children := Names(s.m)[p].children + [e])]
              && InodeAt(t.m.disk, e.inode) == Inode(ITYPE_FILE, 0, 0, [0, 0, 0, 0, 0, 0, 0, 0], 0, 0)
              && e.inode !in Live(s.m) && (forall k: nat :: k < e.inode ==> k in Live(s.m))
              && Live(t.m) == Live(s.m) + {e.inode as nat} && Used(t.m) == Used(s.m)
              && Sized(s.m) && forall j: iptr :: j in Live(s.m) && j != p ==> SameView(s.m.disk, t.m.disk, j)
  {
    CreatKnows(s, p, name, rc, t);
    hide SysInv, MetaOk, AllOk, DirMap, Lookup, CreatEnds, FileMade, FreshName, Sized, NewFile, SameView;
    if Lookup(Names(s.m), p, name).None? {
      var i := NewFileOf(s.m, t.m, p, name);
      FileOutcome(s.m, p, name, i, t.m);
    }
  }

  lemma NewFileOf(m: Meta, r: Meta, p: iptr, name: Name) returns (i: iptr)
    requires NewFile(m, r, p, name)
    ensures FileMade(m, r, p, Entry(i, ITYPE_FILE, name))
  {
    hide FileMade;
    i :| FileMade(m, r, p, Entry(i, ITYPE_FILE, name));
  }

  lemma CreatKnows(s: Sys, p: iptr, name: Name, rc: int, t: Sys)
    requires SysInv(s) && CreatEnds(s, p, name, rc, t)
    ensures p in Names(s.m)
    ensures if Lookup(Names(s.m), p, name).Some? then rc == -1 && t == s
            else rc == 0 && t == s.(m := t.m) && FreshName(Names(s.m), p, name) && NewFile(s.m, t.m, p, name)
  {
    hide AllOk, DirMap, FdsOk, Lookup, FreshName, CreatSteps, NewFile, Fits, Counted, Flushed, VolumeOk;
  }

  /** cnrmdir: the empty directory is gone from the names, with its inode and its blocks, or nothing has changed. */
  lemma RmdirOutcome(s: Sys, name: Name, rc: int, t: Sys)
    requires SysInv(s) && RmdirEnds(s, name, rc, t)
    ensures s.cwd in Names(s.m)
    ensures match Lookup(Names(s.m), s.cwd, name)
            case None => rc == -1 && t == s
            case Some(e) =>
              && e.inode in Names(s.m) && e.inode < INODE_COUNT && Sized(s.m) && Mapped(InodeAt(s.m.disk, e.inode))
              && if Names(s.m)[e.inode].children != [] then rc == -1 && t == s
                 else
                   && rc == 0 && t == s.(m := t.m) && Sized(t.m) && AllOk(t.m.disk, Live(t.m))
                   && Names(t.m) == Names(s.m)[s.cwd := Names(s.m)[s.cwd].(children :=
                        Without(Names(s.m)[s.cwd].children, name))] - {e.inode}
                   && e.inode in Live(s.m) && Live(t.m) == Live(s.m) - {e.inode as nat}
                   && (forall b: nat :: b in Used(t.m) <==>
                         b in Used(s.m) && b !in Owned(s.m.disk, InodeAt(s.m.disk, e.inode)))
                   && (forall j: iptr :: j in Live(s.m) && j != s.cwd && j != e.inode ==>
                         SameView(s.m.disk, t.m.disk, j))
  {
    RmdirKnows(s, name, rc, t);
    hide SysInv, MetaOk, AllOk, DirMap, Lookup, RmdirEnds, DirGone, Sized, RmdirStep, SameView;
    var found := Lookup(Names(s.m), s.cwd, name);
    if found.Some? {
      KindOfDirectory(s, found.value.inode);
      DirMapped(s, found.value.inode);
      if Names(s.m)[found.value.inode].children == [] { GoneOutcome(s.m, t.m, s.cwd, found.value); }
    }
  }

  lemma DirMapped(s: Sys, i: iptr)
    requires SysInv(s) && i in Names(s.m)
    ensures i < INODE_COUNT && Mapped(InodeAt(s.m.disk, i))
  {
    hide MetaOk;
    DirInflates(s.m, i);
  }

  lemma GoneOutcome(m: Meta, r: Meta, p: iptr, e: Entry)
    requires DirGone(m, r, p, e)
    ensures Sized(m) && Sized(r) && AllOk(m.disk, Live(m)) && AllOk(r.disk, Live(r)) && p in Names(m)
    ensures Names(r) ==
            Names(m)[p := Names(m)[p].(children := Without(Names(m)[p].children, e.name))] - {e.inode}
    ensures e.inode < INODE_COUNT && Mapped(InodeAt(m.disk, e.inode))
    ensures e.inode in Live(m) && Live(r) == Live(m) - {e.inode as nat}
    ensures forall b: nat :: b in Used(r) <==> b in Used(m) && b !in Owned(m.disk, InodeAt(m.disk, e.inode))
    ensures forall j: iptr :: j in Live(m) && j != p && j != e.inode ==> SameView(m.disk, r.disk, j)
  {
    InTree(m, e.inode);
    hide AllOk, Partition, Tree, DirMap, SameView, Lookup, Flushed;
  }

  lemma RmdirKnows(s: Sys, name: Name, rc: int, t: Sys)
    requires SysInv(s) && RmdirEnds(s, name, rc, t)
    ensures s.cwd in Names(s.m)
    ensures match Lookup(Names(s.m), s.cwd, name)
            case None => rc == -1 && t == s
            case Some(e) =>
              && e.inode in Names(s.m) && e.name == name
              && if Names(s.m)[e.inode].children != [] then rc == -1 && t == s
                 else rc == 0 && t == s.(m := t.m) && DirGone(s.m, t.m, s.cwd, e)
  {
    LookedUp(Names(s.m), s.cwd, name);
    hide AllOk, DirMap, FdsOk, Lookup, RmdirSteps, DirGone, MetaOk;
  }

  lemma LookedUp(nodes: Nodes, d: iptr, name: Name)
    requires d in nodes
    ensures Lookup(nodes, d, name).Some? ==> Lookup(nodes, d, name).value.name == name
  {
  }

  // ---- seek and write ----

  /** cnseek moves the cursor to the offset; the size becomes at least cursor + offset, old bytes stay and zeros show.
      */
  lemma SeekOutcome(s: Sys, k: nat, offset: nat, t: Sys)
    requires SysInv(s) && SeekStep(s, k, offset, t)
    ensures k < |s.fds| && k < |t.fds| && t == s.(m := t.m, fds := s.fds[k := t.fds[k]])
    ensures Sized(s.m) && Sized(t.m) && AllOk(s.m.disk, Live(s.m)) && AllOk(t.m.disk, Live(t.m))
    ensures Names(t.m) == Names(s.m) && Live(t.m) == Live(s.m)
    ensures forall j: iptr :: j in Live(s.m) && j != s.fds[k].inodeId ==> SameView(s.m.disk, t.m.disk, j)
    ensures var f, f' := s.fds[k], t.fds[k];
            && f'.state == f.state && f'.inodeId == f.inodeId && f'.cursor == offset
            && f'.inode.size == (if f.inode.size < f.cursor + offset then f.cursor + offset else f.inode.size)
            && f.inode.size <= |f.data| && f'.inode.size <= |f'.data|
            && f'.data[..f.inode.size] == f.data[..f.inode.size]
            && (forall j :: f.inode.size <= j < f'.inode.size ==> f'.data[j] == 0)
            && f'.inodeId < INODE_COUNT && InodeAt(t.m.disk, f'.inodeId) == f'.inode
  {
    SeekKeeps(s, k, offset, t);
    OthersOutcome(s.m, t.m, s.fds[k].inodeId);
    hide SysInv, MetaOk, AllOk, DirMap, OthersKept, Resized, Room, SameView;
    SoughtBytes(s.m, s.fds[k], t.m, t.fds[k], offset);
  }

  lemma OthersOutcome(m: Meta, r: Meta, i: iptr)
    requires OthersKept(m, r, i)
    ensures Sized(m) && Sized(r) && AllOk(m.disk, Live(m)) && AllOk(r.disk, Live(r))
    ensures Names(r) == Names(m) && Live(r) == Live(m)
    ensures forall j: iptr :: j in Live(m) && j != i ==> SameView(m.disk, r.disk, j)
  {
    hide AllOk, Partition, Tree, DirMap, SameView, Flushed;
  }

  lemma SoughtBytes(m: Meta, f: FdEntry, r: Meta, f': FdEntry, offset: nat)
    requires Sought(m, f, r, f', offset)
    ensures f'.state == f.state && f'.inodeId == f.inodeId && f'.cursor == offset
    ensures f'.inode.size == (if f.inode.size < f.cursor + offset then f.cursor + offset else f.inode.size)
    ensures f.inode.size <= |f.data| && f'.inode.size <= |f'.data|
    ensures f'.data[..f.inode.size] == f.data[..f.inode.size]
    ensures forall j :: f.inode.size <= j < f'.inode.size ==> f'.data[j] == 0
    ensures Sized(r) && f'.inodeId < INODE_COUNT && InodeAt(r.disk, f'.inodeId) == f'.inode
  {
    var old0, text := f.data[..f.inode.size], f'.data[..f'.inode.size];
    assert text == old0 + ZeroBytes(f'.inode.size - f.inode.size);
    assert f'.data[..f.inode.size] == text[..f.inode.size] == old0;
    forall j | f.inode.size <= j < f'.inode.size ensures f'.data[j] == 0 {
      assert f'.data[j] == text[j];
    }
  }

  /** cnwrite puts the buffer at the cursor, keeps all other bytes, and leaves the disk with what the cache holds. */
  lemma WriteOutcome(s: Sys, k: nat, buf: seq<byte>, t: Sys)
    requires SysInv(s) && WriteStep(s, k, buf, t)
    ensures k < |s.fds| && k < |t.fds|
    ensures s.fds[k].state != FD_WRITE ==> t == s
    ensures Sized(s.m) && Sized(t.m) && AllOk(s.m.disk, Live(s.m)) && AllOk(t.m.disk, Live(t.m))
    ensures Names(t.m) == Names(s.m) && Live(t.m) == Live(s.m)
    ensures s.fds[k].state == FD_WRITE ==>
              forall j: iptr :: j in Live(s.m) && j != s.fds[k].inodeId ==> SameView(s.m.disk, t.m.disk, j)
    ensures s.fds[k].state == FD_WRITE ==>
              && t == s.(m := t.m, fds := s.fds[k := t.fds[k]])
              && var f, f' := s.fds[k], t.fds[k];
              && f'.state == f.state && f'.inodeId == f.inodeId && f'.cursor == f.cursor + |buf|
              && f'.inode.size == (if f.inode.size < f.cursor + |buf| then f.cursor + |buf| else f.inode.size)
              && f.cursor <= f.inode.size <= |f.data| && f'.inode.size <= |f'.data|
              && f'.data[..f.cursor] == f.data[..f.cursor] && f'.data[f.cursor..f.cursor + |buf|] == buf
              && (forall j :: f.cursor + |buf| <= j < f.inode.size ==> f'.data[j] == f.data[j])
              && f'.inodeId < INODE_COUNT && InodeAt(t.m.disk, f'.inodeId) == f'.inode
              && Mapped(f'.inode) && InData(BlockList(t.m.disk, f'.inode)) && Load(t.m.disk, f'.inode) == f'.data
  {
    hide SysInv, MetaOk, AllOk, DirMap, OthersKept, WriteStep, Written, Load, BlockList, InData, Mapped, SameView;
    CdFacts(s);
    WriteKeeps(s, k, buf, t);
    WriteFrame(s, k, buf, t);
    if s.fds[k].state == FD_WRITE {
      OthersOutcome(s.m, t.m, s.fds[k].inodeId);
      WrittenBytes(s.m, s.fds[k], t.m, t.fds[k], buf);
    }
  }

  lemma WrittenBytes(m: Meta, f: FdEntry, r: Meta, f': FdEntry, buf: seq<byte>)
    requires Written(m, f, r, f', buf)
    ensures f'.state == f.state && f'.inodeId == f.inodeId && f'.cursor == f.cursor + |buf|
    ensures f'.inode.size == (if f.inode.size < f.cursor + |buf| then f.cursor + |buf| else f.inode.size)
    ensures f.cursor <= f.inode.size <= |f.data| && f'.inode.size <= |f'.data|
    ensures f'.data[..f.cursor] == f.data[..f.cursor] && f'.data[f.cursor..f.cursor + |buf|] == buf
    ensures forall j :: f.cursor + |buf| <= j < f.inode.size ==> f'.data[j] == f.data[j]
    ensures Sized(r) && f'.inodeId < INODE_COUNT && InodeAt(r.disk, f'.inodeId) == f'.inode
    ensures Mapped(f'.inode) && InData(BlockList(r.disk, f'.inode)) && Load(r.disk, f'.inode) == f'.data
  {
    hide Load, BlockList, InData;
    var c, e, old0, text := f.cursor, f.cursor + |buf|, f.data[..f.inode.size], f'.data[..f'.inode.size];
    var tail := if e <= f.inode.size then old0[e..] else [];
    assert text == old0[..c] + buf + tail && |text| == f'.inode.size;
    ThreeParts(old0, c, buf, tail, text);
    assert old0[..c] == f.data[..c];
    assert f'.data[..c] == text[..c] && f'.data[c..e] == text[c..e];
    forall j | e <= j < f.inode.size ensures f'.data[j] == f.data[j] {
      assert f'.data[j] == text[j];
    }
  }

  lemma ThreeParts(a: seq<byte>, c: nat, buf: seq<byte>, tail: seq<byte>, text: seq<byte>)
    requires c <= |a| && text == a[..c] + buf + tail
    requires tail == if c + |buf| <= |a| then a[c + |buf|..] else []
    ensures c + |buf| <= |text| && text[..c] == a[..c] && text[c..c + |buf|] == buf
    ensures forall j :: c + |buf| <= j < |a| ==> j < |text| && text[j] == a[j]
  {
  }

  // ---- what a call leaves alone ----

  /** A call changes no descriptor and no bit but its own: cnclose, cnread, cnseek and cnwrite the one they are given,
      cnopen one that was free, the others none. Only cncd changes the current directory, and cncd, cnclose and cnread
      leave the device and its caches alone. */
  lemma StepFrame(s: Sys, op: Op, t: Sys)
    requires SysInv(s) && Step(s, op, t)
    ensures |t.fds| == |s.fds|
    ensures !op.Cd? ==> t.cwd == s.cwd
    ensures op.Cd? || op.Close? || op.Read? ==> t.m == s.m
    ensures op.Mkdir? || op.Rmdir? || op.Cd? || op.Creat? ==> t.fds == s.fds && t.fdBm == s.fdBm
    ensures op.Read? || op.Seek? || op.Write? ==> t.fdBm == s.fdBm
    ensures op.Close? || op.Read? || op.Seek? || op.Write? ==>
              && (forall k :: 0 <= k < |s.fds| && k != op.fd ==> t.fds[k] == s.fds[k])
              && (forall k: nat :: k != op.fd ==> (k in Bits(t.fdBm) <==> k in Bits(s.fdBm)))
    ensures op.Open? ==> forall k :: 0 <= k < |s.fds| && s.fds[k].state != FD_FREE ==> t.fds[k] == s.fds[k]
    ensures op.Open? ==> forall k: nat :: k in Bits(s.fdBm) ==> k in Bits(t.fdBm)
    ensures op.Open? ==> forall j, k :: 0 <= j < k < |s.fds| ==> t.fds[j] == s.fds[j] || t.fds[k] == s.fds[k]
  {
    hide SysInv, MkdirStep, RmdirStep, CdStep, CreatStep, OpenStep, CloseStep, ReadStep, SeekStep, WriteStep;
    match op
    case Mkdir(path) => MkdirFrame(s, path, t);
    case Rmdir(name) => RmdirFrame(s, name, t);
    case Cd(path) => CdFrame(s, path, t);
    case Creat(p, name) => CreatFrame(s, p, name, t);
    case Open(p, name, mode) => OpenFrame(s, p, name, mode, t);
    case Close(fd) => CloseFrame(s, fd, t);
    case Read(fd, bytes) => ReadFrame(s, fd, bytes, t);
    case Seek(fd, offset) => SeekFrame(s, fd, offset, t);
    case Write(fd, buf) => WriteFrame(s, fd, buf, t);
  }

  lemma MkdirFrame(s: Sys, path: Path, t: Sys)
    requires SysInv(s) && MkdirStep(s, path, t)
    ensures t == s.(m := t.m)
  {
    hide SysInv, MetaOk, Lookup, MkdirSteps, MkdirWalk, CanMkdir;
  }

  lemma RmdirFrame(s: Sys, name: Name, t: Sys)
    requires SysInv(s) && RmdirStep(s, name, t)
    ensures t == s.(m := t.m)
  {
    hide SysInv, MetaOk, Lookup, RmdirSteps;
  }

  lemma CdFrame(s: Sys, path: Path, t: Sys)
    requires SysInv(s) && CdStep(s, path, t)
    ensures t == s.(cwd := t.cwd)
  {
    hide SysInv, MetaOk, Reach;
  }

  lemma CreatFrame(s: Sys, p: iptr, name: Name, t: Sys)
    requires SysInv(s) && CreatStep(s, p, name, t)
    ensures t == s.(m := t.m)
  {
    hide SysInv, MetaOk, Lookup, CreatSteps, CanCreat;
  }

  lemma OpenFrame(s: Sys, p: iptr, name: Name, mode: nat, t: Sys)
    requires SysInv(s) && OpenStep(s, p, name, mode, t)
    ensures t.cwd == s.cwd && |t.fds| == |s.fds|
    ensures forall k :: 0 <= k < |s.fds| && s.fds[k].state != FD_FREE ==> t.fds[k] == s.fds[k]
    ensures forall j, k :: 0 <= j < k < |s.fds| ==> t.fds[j] == s.fds[j] || t.fds[k] == s.fds[k]
    ensures forall k: nat :: k in Bits(s.fdBm) ==> k in Bits(t.fdBm)
  {
    hide SysInv, MetaOk, AllOk, DirMap, Lookup, OpenStep, OpenEnds, Load, BlockList, InData, Mapped, FirstFree, Bits,
         Sized;
    var fd := OpenIsEnd(s, p, name, mode, t);
    OpenOutcome(s, p, name, mode, fd, t);
  }

  lemma OpenIsEnd(s: Sys, p: iptr, name: Name, mode: nat, t: Sys) returns (fd: int)
    requires SysInv(s) && OpenStep(s, p, name, mode, t)
    ensures OpenEnds(s, p, name, mode, fd, t)
  {
    CdFacts(s);
    hide MetaOk, AllOk, DirMap, FdsOk, Lookup, FdOpened, CreatSteps, CanCreat, FirstFree;
    fd := if Lookup(Names(s.m), p, name).None? && mode != FD_WRITE then -1 else FirstFree(s.fdBm);
  }

  lemma CloseFrame(s: Sys, k: nat, t: Sys)
    requires SysInv(s) && CloseStep(s, k, t)
    ensures t.m == s.m && t.cwd == s.cwd && |t.fds| == |s.fds|
    ensures forall j :: 0 <= j < |s.fds| && j != k ==> t.fds[j] == s.fds[j]
    ensures forall j: nat :: j != k ==> (j in Bits(t.fdBm) <==> j in Bits(s.fdBm))
  {
    hide SysInv, CloseStep, Bits;
    CloseOutcome(s, k, t);
  }

  lemma ReadFrame(s: Sys, k: nat, bytes: nat, t: Sys)
    requires ReadStep(s, k, bytes, t)
    ensures t == s.(fds := t.fds) && |t.fds| == |s.fds|
    ensures forall j :: 0 <= j < |s.fds| && j != k ==> t.fds[j] == s.fds[j]
  {
  }

  lemma SeekFrame(s: Sys, k: nat, offset: nat, t: Sys)
    requires SeekStep(s, k, offset, t)
    ensures t == s.(m := t.m, fds := t.fds) && |t.fds| == |s.fds|
    ensures forall j :: 0 <= j < |s.fds| && j != k ==> t.fds[j] == s.fds[j]
  {
    hide Resized, Room;
  }

  lemma WriteFrame(s: Sys, k: nat, buf: seq<byte>, t: Sys)
    requires WriteStep(s, k, buf, t)
    ensures k < |s.fds| && k < |t.fds| && (s.fds[k].state != FD_WRITE ==> t == s)
    ensures t == s.(m := t.m, fds := s.fds[k := t.fds[k]])
    ensures forall j :: 0 <= j < |s.fds| && j != k ==> t.fds[j] == s.fds[j]
  {
    hide Resized, Room, PutThrough;
  }

  /** Over any run a descriptor in use stays as it is until a call is given it. */
  lemma {:induction false} RunKeepsDescriptor(ss: seq<Sys>, ops: seq<Op>, k: nat, n: nat)
    requires Run(ss, ops) && SysInv(ss[0]) && n < |ss| && k < |ss[0].fds| && ss[0].fds[k].state != FD_FREE
    requires forall j :: 0 <= j < n && (ops[j].Close? || ops[j].Read? || ops[j].Seek? || ops[j].Write?) ==>
             ops[j].fd != k
    ensures k < |ss[n].fds| && ss[n].fds[k] == ss[0].fds[k] && (k in Bits(ss[0].fdBm) ==> k in Bits(ss[n].fdBm))
  {
    hide SysInv, Step, Bits, Run;
    RunLength(ss, ops);
    if n > 0 {
      RunKeepsDescriptor(ss, ops, k, n - 1);
      RunKeeps(ss, ops, n - 1);
      RunSteps(ss, ops, n - 1);
      StepKeepsDescriptor(ss[n - 1], ops[n - 1], ss[n], k);
    }
  }

  lemma RunLength(ss: seq<Sys>, ops: seq<Op>)
    requires Run(ss, ops)
    ensures |ss| == |ops| + 1
  {
  }

  lemma RunSteps(ss: seq<Sys>, ops: seq<Op>, k: nat)
    requires Run(ss, ops) && k < |ops| && k + 1 < |ss| && SysInv(ss[k])
    ensures Step(ss[k], ops[k], ss[k + 1])
  {
    hide SysInv, Step;
  }

  lemma StepKeepsDescriptor(s: Sys, op: Op, t: Sys, k: nat)
    requires SysInv(s) && Step(s, op, t) && k < |s.fds| && s.fds[k].state != FD_FREE
    requires op.Close? || op.Read? || op.Seek? || op.Write? ==> op.fd != k
    ensures k < |t.fds| && t.fds[k] == s.fds[k] && (k in Bits(s.fdBm) ==> k in Bits(t.fdBm))
  {
    hide SysInv, Step, Bits;
    StepFrame(s, op, t);
  }

  // ---- mount ----

  /** The caches after a mount are what the disk holds, but for the mark; no descriptor is in use. */
  lemma MountOutcome(d: Image, s: Sys)
    requires Mountable(d) && s.m == Mounted(d) && AtRest(s)
    ensures Shape(d) && s.m.disk == d && s.m.super == d[BLOCKID_SUPER].sb.(state := ERROR_FS)
    ensures s.m.blockBm == d[BLOCKID_BLOCK_BITMAP].bits && s.m.inodeBm == d[BLOCKID_INODE_BITMAP].bits
    ensures s.cwd == INODE_ROOTDIR && |s.fds| == MAX_FD && forall k :: 0 <= k < MAX_FD ==> s.fds[k].state == FD_FREE
    ensures Bits(s.fdBm) == {}
  {
    hide MetaOk;
    ZeroBitmapIsEmpty(s.fdBm);
  }

  /** The superblock of a new volume, number by number; what the device held outside the metadata, the root's inode and
      the root's block stays. */
  lemma MkfsOutcome(d0: Image, bb: seq<bv8>, ib: seq<bv8>, d: Image)
    requires MadeFs(d0, bb, ib, d)
    ensures Shape(d0) && Shape(d) && d[BLOCKID_SUPER] == SuperBlock(Superblock(6400, 25600, 6399, 25496, 0xCD5E, 1))
    ensures forall k :: BLOCKID_ROOT_DIR < k < BD_SIZE_BLOCKS ==> d[k] == d0[k]
    ensures forall j: nat :: 0 < j < INODE_COUNT ==> InodeAt(d, j) == InodeAt(d0, j)
  {
    FreshImage(d0, bb, ib, d);
    var d1 := d0[BLOCKID_SUPER := SuperBlock(NewSuper())]
                [BLOCKID_BLOCK_BITMAP := BitBlock(bb)][BLOCKID_INODE_BITMAP := BitBlock(ib)];
    InodeTableIsMap(d1, INODE_ROOTDIR, DirInode(BLOCKID_ROOT_DIR));
    SameDataSameInodes(d0, d1);
    hide NewDirBytes, DirInode;
  }
}
