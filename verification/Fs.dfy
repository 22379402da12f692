/** The mounted file system (src/fs.c): descriptor table, current directory, and the calls on them. */
module Fs {
  import opened Params
  import opened LittleEndian
  import opened Bitmap
  import opened Layout
  import opened BlockMap
  import opened Allocator
  import opened Growth
  import opened Dirent
  import opened Namespace
  import opened Volume
  import opened VolumeOps
  import opened OpenFile
  import opened FileOps
  import opened ReadOps
  import opened Coherence
  import opened DirOps
  import opened MetaOps
  import opened Steps
  import opened Paths
  import opened Walks
  import opened TreeWalk
  import opened System
  import opened Format
  import opened Runs
  import opened Calls
  import opened Outcomes
  import opened StoreLayer

  /** A directory file in memory (dir_ptr, include/fs.h:47-52). */
  class DirPtr {
    var inodeId: iptr
    var inode: Inode
    var index: nat
    var data: seq<byte>

    constructor ()
      ensures index == 0 && inodeId == INODE_ROOTDIR
    {
      inodeId := 0;
      inode := EmptyFile();
      index := 0;
      data := [];
    }

    /** From the index on there are records up to the size. */
    ghost predicate Readable()
      reads this
    {
      inode.size <= |data| && Chain(data, index, inode.size)
    }

    ghost function Rest(): seq<Entry>
      requires Readable()
      reads this
    {
      Parse(data, index, inode.size)
    }

    /** The handle shows directory p as it is on the disk. */
    ghost predicate Shows(m: Meta, p: iptr)
      reads this
    {
      && Shape(m.disk) && p < INODE_COUNT && inodeId == p && inode == InodeAt(m.disk, p)
      && DataBlock(DirBlock(inode)) && data == Bytes(m.disk, DirBlock(inode))
    }

    /** The handle holds the whole file i as it is on the disk, whatever its kind. */
    ghost predicate Holds(m: Meta, i: iptr)
      reads this
    {
      Shape(m.disk) && Inflates(m.disk, i) && inodeId == i && inode == InodeAt(m.disk, i) && data == Load(m.disk, inode)
    }

    /** The record at the index, if there is one, lies within the data. */
    ghost predicate Inside()
      reads this
    {
      index < inode.size ==> index + 8 <= |data| && index + 8 + data[index + 6] <= |data|
    }

    /** src/fs.c:364-375: the next entry, whatever the bytes mean. On records the index moves by a whole one, so loops
        over it end. */
    method CnReaddir() returns (r: Option<Entry>)
      requires Readable() || Inside()
      modifies this`index
      ensures old(Inside()) && match r
              case None => old(index) >= inode.size && index == old(index)
              case Some(e) =>
                old(index) < inode.size && e == EntryAt(data, old(index))
                  && index == old(index) + Le16(data, old(index) + 4)
      ensures old(Readable()) ==>
                && Readable() && old(Rest()) == (match r { case None => [] case Some(e) => [e] + Rest() })
                && (r.None? ==> index == inode.size) && (r.Some? ==> old(index) < index <= inode.size)
    {
      if index >= inode.size {
        return None;
      }
      var entryLen := Le16(data, index + 4);
      r := Some(EntryAt(data, index));
      index := index + entryLen;
    }

    /** src/fs.c:378-381 */
    method CnRewinddir()
      modifies this`index
      ensures index == 0
    {
      index := 0;
    }

    /** src/fs.c:694-713: the inode of the first entry of that name; a search that fails stops at index = size. */
    method CnStat(name: Name) returns (rc: int, found: iptr)
      requires inode.size <= |data| && Chain(data, 0, inode.size)
      modifies this`index
      ensures match Find(Parse(data, 0, inode.size), name)
              case Some(e) => rc == 0 && found == e.inode
              case None => rc == -1 && index == inode.size
    {
      CnRewinddir();
      SearchRest(name);
      var entry := Scan(name);
      if entry.Some? {
        return 0, entry.value.inode;
      }
      return -1, 0;
    }

    /** The search loop of cnopendir, cnmkdir and cnstat (src/fs.c:432-446, 524-542, 701-711): the first entry of that
        name, or the end of the bytes; on records, of the directory. */
    method Scan(name: Name) returns (r: Option<Entry>)
      requires Search(data, index, inode.size, name) != Unreadable
      modifies this`index
      ensures old(Search(data, index, inode.size, name)) == match r { case None => Miss case Some(e) => Hit(e.inode) }
      ensures r.None? ==> index >= inode.size
      ensures old(Readable()) ==>
              Readable() && r == Find(old(Rest()), name) && (r.None? ==> index == inode.size && Rest() == [])
    {
      hide Search, Chain, Parse, Find, UpToNul, Le16, Le32;
      while true
        invariant Search(data, index, inode.size, name) == old(Search(data, index, inode.size, name)) != Unreadable
        invariant old(Readable()) ==> Readable() && Find(Rest(), name) == Find(old(Rest()), name)
        decreases inode.size - index
      {
        ghost var readable := Readable();
        SearchRound(name);
        if readable { NoNuls(); }
        var entry := CnReaddir();
        if entry.None? {
          return None;
        }
        if readable { FindRound(entry.value, Rest(), name); }
        if UpToNul(entry.value.name) == name {
          return entry;
        }
      }
    }

    lemma SearchRound(name: Name)
      requires Search(data, index, inode.size, name) != Unreadable
      ensures Inside()
      ensures var s := Search(data, index, inode.size, name);
              if index >= inode.size then s == Miss
              else if UpToNul(EntryAt(data, index).name) == name then s == Hit(EntryAt(data, index).inode)
              else Le16(data, index + 4) > 0 && s == Search(data, index + Le16(data, index + 4), inode.size, name)
    {
    }

    lemma NoNuls()
      requires Readable()
      ensures Inside() && (index < inode.size ==> UpToNul(EntryAt(data, index).name) == EntryAt(data, index).name)
    {
      if index < inode.size { NoNul(EntryAt(data, index).name); }
    }

    lemma FindRound(e: Entry, rest: seq<Entry>, name: Name)
      ensures Find([e] + rest, name) == if e.name == name then Some(e) else Find(rest, name)
      ensures Find([], name).None?
    {
      assert ([e] + rest)[1..] == rest;
    }

    /** On records the search is the search of their list. */
    lemma SearchRest(name: Name)
      requires Readable()
      ensures Search(data, index, inode.size, name) ==
              match Find(Rest(), name) { case None => Miss case Some(e) => Hit(e.inode) }
    {
      SearchIsFind(data, index, inode.size, name);
    }
  }

  class FileSystem {
    const store: Store
    const fdTbl: array<FdEntry>
    const fdBm: array<bv8>
    /** Blank until the mount. */
    var cwd: DirPtr
    var good: bool

    constructor (volume: Store)
      requires volume.Parts()
      ensures store == volume && Apart() && fresh(fdTbl) && fresh(fdBm) && fresh(cwd)
    {
      store := volume;
      fdTbl := new FdEntry[MAX_FD](_ => FdEntry(FD_FREE, 0, EmptyFile(), 0, []));
      fdBm := new bv8[MAX_FD / 8](_ => 0);
      cwd := new DirPtr();
      good := false;
    }

    ghost predicate Apart() {
      && {this, fdTbl, fdBm} !! store.Repr()
      && fdTbl.Length == MAX_FD && 8 * fdBm.Length == MAX_FD
    }

    ghost function M(): Meta
      reads store, store.dev, store.dev.blocks, store.blockBm, store.inodeBm
    {
      store.M()
    }

    ghost function S(): Sys
      reads this`cwd, cwd`inodeId, fdTbl, fdBm, store, store.dev, store.dev.blocks, store.blockBm, store.inodeBm
    {
      Sys(store.M(), fdTbl[..], fdBm[..], cwd.inodeId)
    }

    ghost predicate Valid()
      reads this`cwd, cwd`inodeId, fdTbl, fdBm, store, store.dev, store.dev.blocks, store.blockBm, store.inodeBm
    {
      Apart() && store.Ok() && SysInv(S())
    }

    ghost function Cwd(): iptr
      reads this`cwd, cwd`inodeId
    {
      cwd.inodeId
    }

    lemma Named()
      requires Valid()
      ensures MetaOk(M()) && Sized(M()) && Shape(M().disk) && AllOk(M().disk, Live(M()))
    {
      hide AllOk, Partition, DirMap, FileSet, Flushed, FdsOk;
    }

    /** The directory tree. */
    ghost function Dirs(): Nodes
      requires Valid()
      reads this`cwd, cwd`inodeId, fdTbl, fdBm, store, store.dev, store.dev.blocks, store.blockBm, store.inodeBm
    {
      Named();
      Names(M())
    }

    lemma Facts()
      requires Valid()
      ensures MetaOk(M()) && Sized(M()) && AllOk(M().disk, Live(M())) && Dirs() == Names(M())
      ensures Cwd() in Dirs() && INODE_ROOTDIR in Dirs()
    {
      hide AllOk, Partition, DirMap, FileSet, Flushed, FdsOk;
      Named();
      RootNamed(Names(M()), FileSet(M().disk, Live(M())));
    }

    /** The current directory and the root are directories. */
    lemma Anchors()
      requires Valid()
      ensures Cwd() in Dirs() && INODE_ROOTDIR in Dirs()
    {
      Facts();
    }

    // ---- directories ----

    /** src/fs.c:385-393. The kind of the inode is not looked at; a directory shows its entries. */
    method InflateDir(dir: DirPtr, i: iptr)
      requires Valid() && Inflatable(i) && dir != cwd
      modifies dir
      ensures dir.Holds(old(M()), i) && dir.index == 0
      ensures i in old(Dirs()) ==> dir.Shows(old(M()), i) && dir.Readable() && dir.Rest() == AllEntries(old(Dirs()), i)
    {
      hide Valid, Dirs, Inflatable, Chain, Parse, Shape;
      PointAt(dir, i);
      LoadDir(dir);
    }

    /** The inode is in the table and its blocks can be read. */
    ghost predicate Inflatable(i: iptr)
      requires Valid()
      reads this`cwd, cwd`inodeId, fdTbl, fdBm, store, store.dev, store.dev.blocks, store.blockBm, store.inodeBm
    {
      Named();
      Inflates(M().disk, i)
    }

    /** Every directory and every file can be inflated. */
    lemma CanInflate(i: iptr)
      requires Valid() && (i in Dirs() || IsFile(M(), i))
      ensures Inflatable(i)
    {
      Facts();
      hide MetaOk, AllOk, DirMap, Valid, SysInv, IsFile, Inflates;
      if i in Dirs() { DirInflates(M(), i); } else { FileInflates(M(), i); }
    }

    /** An inode, read into a handle. */
    method PointAt(dir: DirPtr, i: iptr)
      requires Valid() && Inflatable(i) && dir != cwd
      modifies dir`inode, dir`inodeId
      ensures i < INODE_COUNT && Shape(old(M()).disk) && dir.inodeId == i && dir.inode == InodeAt(old(M()).disk, i)
    {
      hide SysInv, MetaOk, AllOk, DirMap, Load, Content, AllHonest;
      Named();
      dir.inode := store.InodeRead(i);
      dir.inodeId := i;
    }

    /** The blocks of an inode, read into its handle. */
    method LoadDir(dir: DirPtr)
      requires Valid() && Inflatable(dir.inodeId) && dir.inodeId < INODE_COUNT && Shape(M().disk)
      requires dir.inode == InodeAt(M().disk, dir.inodeId)
      modifies dir`data, dir`index
      ensures dir.Holds(old(M()), dir.inodeId) && dir.index == 0
      ensures dir.inodeId in old(Dirs()) ==>
                dir.Shows(old(M()), dir.inodeId) && dir.Readable() && dir.Rest() == AllEntries(old(Dirs()), dir.inodeId)
    {
      hide SysInv, MetaOk, AllOk, DirMap, Chain, Parse, Load, Content, Shape, AllHonest, IsFile;
      Facts();
      dir.data := store.LlRead(dir.inode);
      dir.index := 0;
      if dir.inodeId in Dirs() {
        DirLoads(M(), dir.inodeId);
        ShowsEntries(M(), dir.inodeId, dir.inode, dir.data);
      }
    }

    method OpenAt(i: iptr) returns (dir: DirPtr)
      requires Valid() && Inflatable(i)
      ensures fresh(dir) && dir.Holds(old(M()), i) && dir.index == 0
      ensures i in old(Dirs()) ==> dir.Shows(old(M()), i) && dir.Readable() && dir.Rest() == AllEntries(old(Dirs()), i)
    {
      hide Valid, Dirs, Inflatable;
      dir := new DirPtr();
      InflateDir(dir, i);
    }

    /** Where the path leads on this volume. */
    ghost function Lands(path: Path): Landing
      requires Valid()
      reads this`cwd, cwd`inodeId, fdTbl, fdBm, store, store.dev, store.dev.blocks, store.blockBm, store.inodeBm
    {
      Named();
      Reach(M().disk, Start(Cwd(), path), path.comps)
    }

    /** What a search in a handle finds is what the volume says. */
    lemma NextSearch(dir: DirPtr, start: iptr, comps: seq<Name>, k: nat, exhausted: bool)
      requires Valid() && Shape(M().disk) && k < |comps| && dir.Holds(M(), dir.inodeId)
      requires Walking(M().disk, start, comps, k, dir.inodeId, exhausted) && Reach(M().disk, start, comps) != Lost
      requires if exhausted then dir.index >= dir.inode.size else dir.index == 0
      ensures match Search(dir.data, dir.index, dir.inode.size, comps[k])
              case Hit(x) => !exhausted && Inflatable(x) && Walking(M().disk, start, comps, k + 1, x, false)
              case Miss => if k == 0 then Reach(M().disk, start, comps) == Nowhere
                           else Walking(M().disk, start, comps, k + 1, dir.inodeId, true)
              case Unreadable => false
    {
      hide Valid, Inflates;
      if !exhausted { WalkOn(M().disk, start, comps, k, dir.inodeId); }
    }

    /** The loop of cnopendir (src/fs.c:429-452): it goes on through files as through directories. */
    method Walk(first: DirPtr, comps: seq<Name>) returns (dir: DirPtr?)
      requires Valid() && Shape(M().disk) && comps != [] && first != cwd && first.Holds(M(), first.inodeId)
               && first.index == 0
      requires Reach(M().disk, first.inodeId, comps) != Lost && (first.inodeId in Dirs() ==> first.Readable())
      modifies first`index
      ensures match old(Reach(M().disk, first.inodeId, comps))
              case Nowhere => dir == null
              case At(i, exhausted) =>
                && dir != null && (dir == first || fresh(dir)) && dir.Holds(old(M()), i)
                  && (!exhausted ==> dir.index == 0)
                && (i in old(Dirs()) ==> dir.Readable())
              case Lost => false
    {
      hide Valid, Dirs, Inflatable, Walking, Reach, Search, Chain, Parse, Find, IsFile, Inflates, Load, Shape;
      ghost var m, nodes, start := M(), Dirs(), first.inodeId;
      var d := first;
      HeldInflates(d, m);
      WalkStarts(m.disk, start, comps);
      var loaded: nat := INODE_COUNT + 1;
      ghost var exhausted := false;
      for k := 0 to |comps|
        invariant Valid() && M() == m && Dirs() == nodes && d != cwd
        invariant d == first || fresh(d)
        invariant d.Holds(m, d.inodeId) && d.inodeId < INODE_COUNT
        invariant loaded == if k == 0 then INODE_COUNT + 1 else d.inodeId
        invariant Walking(m.disk, start, comps, k, d.inodeId, exhausted)
        invariant if exhausted then d.index >= d.inode.size else d.index == 0
        invariant d.inodeId in nodes ==> d.Readable()
      {
        NextSearch(d, start, comps, k, exhausted);
        var entry := d.Scan(comps[k]);
        if entry.Some? {
          loaded := entry.value.inode;
          d := OpenAt(entry.value.inode);
          HeldInflates(d, m);
        } else {
          exhausted := true;
        }
        if d.inodeId != loaded {
          return null;
        }
      }
      dir := d;
      WalkEnds(m.disk, start, comps, d.inodeId, exhausted);
    }

    lemma HeldInflates(dir: DirPtr, m: Meta)
      requires dir.Holds(m, dir.inodeId)
      ensures Shape(m.disk) && Inflates(m.disk, dir.inodeId) && dir.inodeId < INODE_COUNT
    {
    }

    /** src/fs.c:397-460: nothing when the first component is missing, else a handle on what the walk ends in, be it a
        directory or a file; the handle is at its start when every component was found. */
    method CnOpendir(path: Path) returns (dir: DirPtr?)
      requires Valid() && !Lands(path).Lost?
      ensures match old(Lands(path))
              case Nowhere => dir == null
              case At(i, exhausted) =>
                && dir != null && fresh(dir) && dir.Holds(old(M()), i) && (!exhausted ==> dir.index == 0)
                && (i in old(Dirs()) ==> dir.Shows(old(M()), i) && dir.Readable())
              case Lost => false
    {
      hide Valid, Dirs, Reach, Chain, Parse, AllEntries, Lands, IsFile, Inflatable, Inflates, Load;
      PathFacts(path);
      var start := if path.absolute then INODE_ROOTDIR else cwd.inodeId;
      var first := OpenAt(start);
      if path.comps == [] && path.absolute {
        return first;
      }
      var comps := if path.comps == [] then [DOT] else path.comps;
      dir := Walk(first, comps);
      if dir != null && dir.inodeId in Dirs() { HeldShows(dir); }
    }

    /** A handle that holds the file of a directory shows the directory. */
    lemma HeldShows(dir: DirPtr)
      requires Valid() && dir.inodeId in Dirs() && dir.Holds(M(), dir.inodeId)
      ensures dir.Shows(M(), dir.inodeId)
    {
      Facts();
      hide MetaOk, AllOk, DirMap, Valid, SysInv, Load, Content;
      DirLoads(M(), dir.inodeId);
    }

    lemma PathFacts(path: Path)
      requires Valid()
      ensures Sized(M()) && Shape(M().disk)
      ensures var start := Start(Cwd(), path);
              && start in Dirs() && Inflatable(start) && Lands(path) == Reach(M().disk, start, Tokens(path))
              && (path.comps == [] ==> Lands(path) == At(start, false))
    {
      Facts();
      hide MetaOk, AllOk, DirMap, Reach, Follow, Inflates, SysInv, FdsOk;
      TokensReach(M(), Cwd(), path);
      DirInflates(M(), Start(Cwd(), path));
      CanInflate(Start(Cwd(), path));
      ReachNothing(M().disk, Start(Cwd(), path));
    }

    lemma ReachNothing(d: Image, i: iptr)
      requires Shape(d) && Inflates(d, i)
      ensures Reach(d, i, []) == At(i, false)
    {
    }

    /** src/fs.c:473-483. Whatever the path leads to becomes the current directory, a file too; the system stays in
        order exactly when it is a directory. */
    method CnCd(path: Path) returns (rc: int)
      requires Valid() && !Lands(path).Lost?
      modifies this`cwd
      ensures CdCode(old(S()), path, S())
      ensures Valid() <==> old(Lands(path)).Nowhere? || old(Lands(path)).inode in old(Dirs())
      ensures match old(Lands(path))
              case Nowhere => rc == -1 && Cwd() == old(Cwd())
              case At(i, exhausted) => rc == 0 && Cwd() == i
              case Lost => false
      ensures var start := if path.absolute then INODE_ROOTDIR else old(Cwd());
              && start in old(Dirs())
              && match Resolve(old(Dirs()), start, path.comps)
                 case Some(d) => rc == 0 && Cwd() == d
                 case None =>
                   && path.comps != []
                   && (Lookup(old(Dirs()), start, path.comps[0]).None? ==> rc == -1 && Cwd() == old(Cwd()))
                   && (Lookup(old(Dirs()), start, path.comps[0]).Some? && OnlyDirs(old(Dirs()), start, path.comps) ==>
                         && rc == 0 && Cwd() in old(Dirs())
                         && exists k :: 1 <= k < |path.comps| && Lookup(old(Dirs()), Cwd(), path.comps[k]).None?
                                        && Resolve(old(Dirs()), start, path.comps[..k]) == Some(Cwd()))
    {
      hide Dirs, Reach, Lands, SysInv, CdCode, Store.Ok, Apart, MetaOk, AllOk, DirMap, FdsOk, Sized, IsFile, Inflates,
           Load;
      ghost var s := S();
      WhereTo(path);
      var dir := CnOpendir(path);
      if dir == null {
        CdTo(s, path, s);
        CdLeads(s, path, s);
        return -1;
      }
      cwd := dir;
      rc := 0;
      CdTo(s, path, S());
      CdLeads(s, path, S());
    }

    lemma WhereTo(path: Path)
      requires Valid()
      ensures SysInv(S()) && Shape(S().m.disk) && S().cwd in Names(S().m) && Dirs() == Names(S().m)
      ensures Lands(path) == Reach(S().m.disk, Start(S().cwd, path), path.comps)
    {
      Facts();
    }

    lemma CdTo(s: Sys, path: Path, t: Sys)
      requires SysInv(s) && Shape(s.m.disk)
      requires match Reach(s.m.disk, Start(s.cwd, path), path.comps)
               case Nowhere => t == s
               case At(i, exhausted) => t == s.(cwd := i)
               case Lost => false
      ensures CdCode(s, path, t) && (SysInv(t) <==> t.cwd in Names(s.m))
    {
      hide SysInv, Reach;
      CdMoves(s, path, t);
    }

    // ---- the recursive listing (src/fs.c:1015-1068) ----

    /** The tree on the device, with what measures it. */
    ghost predicate Guided(nodes: Nodes, files: set<iptr>, home: map<iptr, iptr>, depth: map<iptr, nat>, bound: nat)
      requires Valid()
      reads this`cwd, cwd`inodeId, fdTbl, fdBm, store, store.dev, store.dev.blocks, store.blockBm, store.inodeBm
    {
      Dirs() == nodes && Cwd() in nodes && Cwd() in depth && TreeBy(nodes, files, home, depth)
        && Bounded(nodes, depth, bound)
    }

    /** A handle at its start shows all entries of its directory. */
    lemma ShownFromStart(dir: DirPtr, p: iptr)
      requires Valid() && p in Dirs() && dir.Shows(M(), p) && dir.Readable() && dir.index == 0
      ensures dir.Rest() == AllEntries(Dirs(), p)
    {
      Facts();
      hide MetaOk, AllOk, DirMap, Valid, SysInv, Chain, Parse;
      ShowsEntries(M(), p, dir.inode, dir.data);
    }

    /** The object as a value. */
    lemma View()
      requires Valid()
      ensures SysInv(S()) && S().m == M() && S().cwd == Cwd() && Sized(M()) && AllOk(M().disk, Live(M()))
      ensures Dirs() == Names(M()) && Cwd() in Dirs()
    {
      Facts();
    }

    /** Change to the directory that a single name leads to. */
    method StepInto(name: Name)
      requires Valid() && Cwd() in Dirs() && Child(Dirs(), Cwd(), name).Some?
      modifies this`cwd
      ensures Valid() && S() == old(S()).(cwd := old(Child(Dirs(), Cwd(), name)).value) && Dirs() == old(Dirs())
    {
      hide Valid, Dirs, Child, Lands, SysInv, MetaOk, AllOk, DirMap, CdCode, Sized;
      ghost var s := S();
      View();
      Single(name);
      var _ := CnCd(Path(false, [name]));
      SingleStep(s, name, S());
      View();
    }

    lemma Single(name: Name)
      requires Valid() && Cwd() in Dirs() && Child(Dirs(), Cwd(), name).Some?
      ensures Lands(Path(false, [name])) == At(Child(Dirs(), Cwd(), name).value, false)
    {
      Facts();
      hide Valid, MetaOk, AllOk, DirMap, Child, Reach, Follow;
      ReachOne(M(), Cwd(), name);
    }

    /** Down into directory e, list everything there, and back up (src/fs.c:1051-1058). */
    method ListBelow(e: Entry, ghost nodes: Nodes, ghost files: set<iptr>, ghost home: map<iptr, iptr>,
            ghost depth: map<iptr, nat>, ghost bound: nat)
      returns (below: seq<Entry>)
      requires Valid() && Guided(nodes, files, home, depth, bound) && Lists(nodes, Cwd(), e) && e.kind == ITYPE_DIR
      modifies this`cwd
      ensures Valid() && S() == old(S()) && Dirs() == nodes
      ensures e.inode in nodes && EntriesIn(nodes, e.inode, nodes[e.inode].children)
      ensures below == Listing(nodes, depth, bound, e.inode, nodes[e.inode].children)
      decreases bound - depth[Cwd()], 0
    {
      hide Valid, Dirs, Child, Lands, SysInv, TreeBy, Bounded, Listing, Load, Inflates, Chain, Parse, AllEntries;
      GoingDown(nodes, files, home, depth, bound, e);
      StepInto(e.name);
      Single(DOT);
      var next := CnOpendir(Path(false, [DOT]));
      ShownFromStart(next, e.inode);
      below := TreeDir(next, nodes, files, home, depth, bound);
      StepInto(DOTDOT);
    }

    /** What the descent into e needs. */
    lemma GoingDown(nodes: Nodes, files: set<iptr>, home: map<iptr, iptr>, depth: map<iptr, nat>, bound: nat, e: Entry)
      requires Valid() && Guided(nodes, files, home, depth, bound) && Lists(nodes, Cwd(), e) && e.kind == ITYPE_DIR
      ensures Child(nodes, Cwd(), e.name) == Some(e.inode) && e.inode in nodes && e.inode in depth
      ensures depth[e.inode] == depth[Cwd()] + 1 <= bound
      ensures Child(nodes, e.inode, DOT) == Some(e.inode) && Child(nodes, e.inode, DOTDOT) == Some(Cwd())
    {
      hide Valid, Dirs, Child, Bounded;
      DownFacts(nodes, files, home, depth, bound, Cwd(), e);
    }

    /** src/fs.c:1015-1060: every proper entry, and after a directory everything below it. The recursion ends because
        children lie one deeper; cwd comes back to where it was. */
    method TreeDir(dir: DirPtr, ghost nodes: Nodes, ghost files: set<iptr>, ghost home: map<iptr, iptr>,
            ghost depth: map<iptr, nat>, ghost bound: nat)
      returns (visited: seq<Entry>)
      requires Valid() && Guided(nodes, files, home, depth, bound)
      requires dir.Readable() && dir.Rest() == AllEntries(nodes, Cwd())
      modifies this`cwd, dir`index
      ensures Valid() && S() == old(S()) && Dirs() == nodes
      ensures EntriesIn(nodes, old(Cwd()), nodes[old(Cwd())].children)
      ensures visited == Listing(nodes, depth, bound, old(Cwd()), nodes[old(Cwd())].children)
      decreases bound - depth[Cwd()], 2
    {
      hide Valid, Dirs, Child, SysInv, TreeBy, Bounded, Listing, AllEntries, Chain, Parse, Proper;
      ghost var s, d := S(), Cwd();
      StartOfListing(nodes, files, home, depth, bound, d);
      visited := [];
      while true
        invariant Valid() && S() == s && Dirs() == nodes && dir.Readable() && Cwd() == d
        invariant EntriesIn(nodes, d, Proper(dir.Rest()))
        invariant visited + Listing(nodes, depth, bound, d, Proper(dir.Rest())) ==
                  Listing(nodes, depth, bound, d, nodes[d].children)
        decreases dir.inode.size - dir.index
      {
        var entry := dir.CnReaddir();
        if entry.None? {
          EndOfListing(nodes, depth, bound, d);
          break;
        }
        var e := entry.value;
        ListingRound(nodes, depth, bound, d, e, dir.Rest());
        if e.name == DOT || e.name == DOTDOT {
          continue;
        }
        ghost var rest := Listing(nodes, depth, bound, d, Proper(dir.Rest()));
        var part := ListEntry(e, nodes, files, home, depth, bound);
        JoinParts(visited, part, rest);
        visited := visited + part;
      }
    }

    /** An entry, and below it if it is a directory. */
    method ListEntry(e: Entry, ghost nodes: Nodes, ghost files: set<iptr>, ghost home: map<iptr, iptr>,
            ghost depth: map<iptr, nat>, ghost bound: nat)
      returns (part: seq<Entry>)
      requires Valid() && Guided(nodes, files, home, depth, bound) && Lists(nodes, Cwd(), e)
      modifies this`cwd
      ensures Valid() && S() == old(S()) && Dirs() == nodes
      ensures e.kind == ITYPE_DIR ==> e.inode in nodes && EntriesIn(nodes, e.inode, nodes[e.inode].children)
      ensures part == [e] + if e.kind == ITYPE_DIR then Listing(nodes, depth, bound, e.inode, nodes[e.inode].children)
              else []
      decreases bound - depth[Cwd()], 1
    {
      hide Valid, Dirs, SysInv, TreeBy, Bounded, Listing;
      part := [e];
      if e.kind == ITYPE_DIR {
        var below := ListBelow(e, nodes, files, home, depth, bound);
        part := part + below;
      }
    }

    lemma Guide() returns (files: set<iptr>, home: map<iptr, iptr>, depth: map<iptr, nat>, bound: nat)
      requires Valid()
      ensures Guided(Dirs(), files, home, depth, bound)
    {
      View();
      hide Valid, AllOk, DirMap, FileSet, Partition, TreeBy, Bounded, FdsOk, Dirs;
      files := FileSet(M().disk, Live(M()));
      home, depth, bound := Measures(Names(M()), files);
      TreeRanked(Names(M()), files, home, depth);
    }

    /** src/fs.c:1062-1068: every inode below the current directory is visited, and each exactly once, with the name and
        kind that its directory lists; siblings come in the order of their records, and what lies beneath a directory
        follows it directly. The current directory is what it was. */
    method CnTree() returns (visited: seq<Entry>, ghost home: map<iptr, iptr>, ghost depth: map<iptr, nat>)
      requires Valid()
      modifies this`cwd
      ensures Valid() && S() == old(S())
      ensures Ranked(old(Dirs()), depth) && UniqueInodes(visited)
      ensures exists files :: TreeBy(old(Dirs()), files, home, depth)
      ensures forall i: iptr :: Visits(visited, i) <==> Beneath(old(Dirs()), depth, home, old(Cwd()), i)
      ensures forall e :: e in visited ==> e.inode in home && Lists(old(Dirs()), home[e.inode], e)
      ensures forall d :: d in old(Dirs()) && Under(old(Dirs()), depth, old(Cwd()), d) ==>
                ListedIn(home, d, visited) == old(Dirs())[d].children
      ensures forall i, j :: 0 <= i < |visited| && 0 <= j < |visited| && visited[i].kind == ITYPE_DIR
                             && Beneath(old(Dirs()), depth, home, visited[i].inode, visited[j].inode) ==>
                i < j && forall k :: i < k < j ==> Beneath(old(Dirs()), depth, home, visited[i].inode, visited[k].inode)
    {
      hide Valid, Dirs, Lands, SysInv, TreeBy, Bounded, Listing, Visits, Beneath, UniqueInodes, Child, Under, ListedIn,
           Load, Inflates, Chain, Parse, AllEntries;
      ghost var files, bound;
      files, home, depth, bound := Guide();
      ghost var nodes, d := Dirs(), Cwd();
      BoundedRanked(nodes, depth, bound);
      DotIsChild(nodes, d);
      Single(DOT);
      var dir := CnOpendir(Path(false, [DOT]));
      ShownFromStart(dir, d);
      visited := TreeDir(dir, nodes, files, home, depth, bound);
      TreeVisitsAllOnce(nodes, files, home, depth, bound, d);
      TreeInOrder(nodes, files, home, depth, bound, d);
    }

    // ---- creat (src/fs.c:718-755) ----

    /** Write a record at the index, enlarge the directory, write its inode and its block
        (src/fs.c:547-560, 726-739). */
    method AppendRecord(dir: DirPtr, e: Entry)
      requires Apart() && store.Ok() && Dirty(M().disk) && CanAppend(M(), dir.inodeId, e.name)
      requires dir.Shows(M(), dir.inodeId) && dir.index == dir.inode.size
      modifies dir`inode, dir`data, store.dev, store.dev.blocks
      ensures store.Ok() && store.Later() && M() == AppendEntry(old(M()), dir.inodeId, e)
      ensures dir.Shows(M(), dir.inodeId) && Dirty(M().disk)
    {
      hide Store.Ok, Fits, MetaOk;
      store.OkParts();
      AppendShape(M(), dir.inodeId, e);
      dir.data := PutRecord(dir.data, dir.index, e);
      dir.inode := dir.inode.(size := dir.inode.size + EntryLen(|e.name|));
      store.InodeWrite(dir.inodeId, dir.inode);
      store.Write(dir.inode.data0[0], ByteBlock(dir.data));
    }

    /** The handle of a directory is as good after a reservation as before. */
    lemma StillShows(dir: DirPtr, m: Meta, r: Meta)
      requires Sized(m) && Sized(r) && SameData(m.disk, r.disk) && dir.Shows(m, dir.inodeId)
      ensures dir.Shows(r, dir.inodeId)
    {
      SameDataSameInodes(m.disk, r.disk);
    }

    lemma Handled(dir: DirPtr, name: Name)
      requires Valid() && dir.inodeId in Dirs() && dir.Shows(M(), dir.inodeId)
      ensures dir.inode.size <= |dir.data| && Chain(dir.data, 0, dir.inode.size)
      ensures Find(Parse(dir.data, 0, dir.inode.size), name) == Lookup(Dirs(), dir.inodeId, name)
    {
      Facts();
      hide MetaOk, AllOk, DirMap, Chain, Parse, Find;
      ShownLookup(M(), dir.inodeId, dir.inode, dir.data, name);
    }

    /** What cncreat and cnopen rely on: a handle that shows its directory, and room for a new name. */
    ghost predicate Usable(dir: DirPtr, name: Name)
      requires Valid()
      reads this`cwd, cwd`inodeId, fdTbl, fdBm, dir, store, store.dev, store.dev.blocks, store.blockBm, store.inodeBm
    {
      && dir.inodeId in Dirs() && dir.Shows(M(), dir.inodeId)
      && (Lookup(Dirs(), dir.inodeId, name).None? ==> CanCreat(M(), dir.inodeId, name))
    }

    /** A new name makes an empty file with the least free inode; an old one is refused without a trace. The
        handle goes on showing its directory. */
    method CnCreat(dir: DirPtr, name: Name) returns (rc: int)
      requires Valid() && Usable(dir, name)
      modifies dir`index, dir`inode, dir`data, store, store.dev, store.dev.blocks, store.blockBm, store.inodeBm
      ensures Valid() && store.Later() && dir.Shows(M(), dir.inodeId)
      ensures CreatEnds(old(S()), dir.inodeId, name, rc, S())
      ensures dir.inodeId in old(Dirs())
      ensures if Lookup(old(Dirs()), dir.inodeId, name).Some? then rc == -1 && S() == old(S())
              else
                && rc == 0 && S() == old(S()).(m := M()) && Sized(M()) && dir.inodeId in Dirs()
                && Lookup(Dirs(), dir.inodeId, name).Some?
                && var p, e := dir.inodeId, Lookup(Dirs(), dir.inodeId, name).value;
                && e.name == name && e.kind == ITYPE_FILE && e.inode < INODE_COUNT
                && Dirs() == old(Dirs())[p := old(Dirs())[p].(children := old(Dirs())[p].children + [e])]
                && InodeAt(M().disk, e.inode) == Inode(ITYPE_FILE, 0, 0, [0, 0, 0, 0, 0, 0, 0, 0], 0, 0)
                && e.inode !in old(Live(M())) && (forall k: nat :: k < e.inode ==> k in old(Live(M())))
                && Live(M()) == old(Live(M())) + {e.inode as nat} && Used(M()) == old(Used(M()))
                && Sized(old(M()))
                && forall j: iptr :: j in old(Live(M())) && j != p ==> SameView(old(M()).disk, M().disk, j)
    {
      hide SameView, Dirs, SysInv, MetaOk, AllOk, DirMap, Chain, Parse, Find, Lookup, CreatStep, CanCreat, CreatSteps,
           CreatEnds,
           Store.Ok, Counted, CanAppend, Sized, FdsOk, Shape;
      ghost var s, p := S(), dir.inodeId;
      View();
      Handled(dir, name);
      var found, _ := dir.CnStat(name);
      if found == 0 {
        CreatRefused(s, p, name);
        CreatOutcome(s, p, name, -1, s);
        return -1;
      }
      CanCreatFacts(M(), p, name);
      ghost var m1, i := MakeFile(dir, name);
      CreatDone(s, p, name, m1, i, S());
      CreatOutcome(s, p, name, 0, S());
      View();
      rc := 0;
    }

    /** The part of cncreat that writes. */
    method MakeFile(dir: DirPtr, name: Name) returns (ghost m1: Meta, ghost i: iptr)
      requires Apart() && store.Ok() && dir.Shows(M(), dir.inodeId) && dir.index == dir.inode.size
      requires Counted(M()) && M().super.freeInodes > 0 && CanAppend(M(), dir.inodeId, name) && dir.inodeId in Live(M())
      modifies dir`inode, dir`data, store, store.dev, store.dev.blocks, store.blockBm, store.inodeBm
      ensures store.Ok() && store.Later() && CreatSteps(old(M()), dir.inodeId, name, m1, i, M())
      ensures dir.Shows(M(), dir.inodeId)
    {
      hide Store.Ok, Allocator.ReserveInode, AppendEntry, Fits, MetaOk, Counted, Sized, Shape;
      ghost var m := M();
      Reserving(m, dir.inodeId, name);
      var id := store.ReserveInode();
      m1, i := M(), id;
      StillShows(dir, m, m1);
      AppendRecord(dir, Entry(id, ITYPE_FILE, name));
      store.OkParts();
      var newFile := Inode(ITYPE_FILE, 0, 0, [0, 0, 0, 0, 0, 0, 0, 0], 0, 0);
      OtherSlot(dir, M(), id, newFile);
      store.InodeWrite(id, newFile);
    }

    /** Another inode's slot does not show in the handle. */
    lemma OtherSlot(dir: DirPtr, m: Meta, i: iptr, n: Inode)
      requires Sized(m) && dir.Shows(m, dir.inodeId) && i < INODE_COUNT && i != dir.inodeId
      ensures dir.Shows(m.(disk := PutInode(m.disk, i, n)), dir.inodeId)
    {
      InodeTableIsMap(m.disk, i, n);
    }

    // ---- mkdir (src/fs.c:493-605) ----

    /** What cnmkdir relies on: its intermediate components are directories or missing, and there is room. */
    ghost predicate Mkdirable(path: Path)
      requires Valid()
      reads this`cwd, cwd`inodeId, fdTbl, fdBm, store, store.dev, store.dev.blocks, store.blockBm, store.inodeBm
    {
      Anchors();
      && path.comps != [] && MkdirOnlyDirs(Dirs(), Cwd(), Via(path))
      && var p, name := MkdirWalk(Dirs(), Cwd(), Via(path)), Last(path);
         Lookup(Dirs(), p, name).None? ==> CanMkdir(M(), p, name)
    }

    /** The loop over the components: a missing one is passed over, the last one is only searched for. */
    method FindParent(comps: seq<Name>) returns (dir: DirPtr, present: bool)
      requires Valid() && comps != [] && Cwd() in Dirs() && MkdirOnlyDirs(Dirs(), Cwd(), comps[..|comps| - 1])
      ensures fresh(dir) && dir.inodeId == MkdirWalk(old(Dirs()), old(Cwd()), comps[..|comps| - 1])
      ensures dir.Shows(old(M()), dir.inodeId)
      ensures present <==> Lookup(old(Dirs()), dir.inodeId, comps[|comps| - 1]).Some?
      ensures !present ==> dir.index == dir.inode.size
    {
      hide Valid, Dirs, MkdirWalking, MkdirWalk, MkdirOnlyDirs, Find, Search, Chain, Parse, Shape, Lookup, AllEntries,
           IsFile, Inflatable, Inflates, Load;
      ghost var m, nodes, start, init := M(), Dirs(), Cwd(), comps[..|comps| - 1];
      MkdirWalkStarts(nodes, start, init);
      dir := new DirPtr();
      CanInflate(cwd.inodeId);
      PointAt(dir, cwd.inodeId);
      var k := 0;
      while true
        invariant Valid() && M() == m && Dirs() == nodes
        invariant fresh(dir) && dir.inodeId in nodes && dir.inodeId < INODE_COUNT && Shape(m.disk)
        invariant dir.inode == InodeAt(m.disk, dir.inodeId)
        invariant k < |comps| && MkdirWalking(nodes, start, init, k, dir.inodeId)
        decreases |comps| - k
      {
        CanInflate(dir.inodeId);
        LoadDir(dir);
        dir.SearchRest(comps[k]);
        LookupIs(nodes, dir.inodeId, comps[k]);
        var lastDir := k + 1 == |comps|;
        var entry := dir.Scan(comps[k]);
        if lastDir {
          MkdirWalkEnds(nodes, start, init, dir.inodeId);
          return dir, entry.Some?;
        }
        MkdirWalkOn(nodes, start, init, k, dir.inodeId);
        if entry.Some? {
          CanInflate(entry.value.inode);
          PointAt(dir, entry.value.inode);
        }
        k := k + 1;
      }
    }

    /** The part of cnmkdir that writes. */
    method MakeDir(dir: DirPtr, name: Name) returns (ghost m1: Meta, ghost i: iptr, ghost m3: Meta, ghost nb: iptr)
      requires Apart() && store.Ok() && dir.Shows(M(), dir.inodeId) && dir.index == dir.inode.size
               && dir.inodeId in Live(M())
      requires Counted(M()) && M().super.freeInodes > 0 && M().super.freeBlocks > 0 && CanAppend(M(), dir.inodeId, name)
      modifies dir`inode, dir`data, store, store.dev, store.dev.blocks, store.blockBm, store.inodeBm
      ensures store.Ok() && store.Later() && MkdirSteps(old(M()), dir.inodeId, name, m1, i, m3, nb, M())
    {
      hide Store.Ok, Allocator.ReserveInode, Allocator.ReserveBlock, AppendEntry, Fits, Counted, MetaOk;
      ghost var m := M();
      Reserving(m, dir.inodeId, name);
      var id := store.ReserveInode();
      m1, i := M(), id;
      StillShows(dir, m, m1);
      AppendRecord(dir, Entry(id, ITYPE_DIR, name));
      ReservingBlock(m, m1, dir.inodeId, Entry(id, ITYPE_DIR, name));
      var block := store.ReserveBlock();
      m3, nb := M(), block;
      WriteNewDir(id, dir.inodeId, block);
    }

    /** The inode of a new directory, and its block with "." and ".." (src/fs.c:562-595). */
    method WriteNewDir(i: iptr, p: iptr, nb: iptr)
      requires Apart() && store.Ok() && Dirty(M().disk) && i < INODE_COUNT && DataBlock(nb)
      modifies store.dev, store.dev.blocks
      ensures store.Ok() && store.Later() && Shape(old(M()).disk)
      ensures M() == old(M()).(disk := PutInode(old(M()).disk, i, DirInode(nb))[nb := ByteBlock(NewDirBytes(i, p))])
    {
      hide Store.Ok, MetaOk;
      store.OkParts();
      var newDir := Inode(ITYPE_DIR, 0, 1, [nb, 0, 0, 0, 0, 0, 0, 0], 0, 0);
      var block := ZeroBytes(BLOCK_SIZE);
      var self, parent := Entry(i, ITYPE_DIR, DOT), Entry(p, ITYPE_DIR, DOTDOT);
      block := PutRecord(block, 0, self);
      newDir := newDir.(size := newDir.size + 12);
      block := PutRecord(block, 12, parent);
      newDir := newDir.(size := newDir.size + 12);
      DotBytes(i, p);
      InodeTableIsMap(M().disk, i, newDir);
      store.InodeWrite(i, newDir);
      store.Write(nb, ByteBlock(block));
    }

    /** A new name makes that directory, in the directory its intermediate components lead to, with the least free
        inode and the least free block; an old name is refused without a trace. */
    method CnMkdir(path: Path) returns (rc: int)
      requires Valid() && Mkdirable(path)
      modifies store, store.dev, store.dev.blocks, store.blockBm, store.inodeBm
      ensures Valid() && store.Later() && MkdirEnds(old(S()), path, rc, S())
      ensures path.comps != [] && old(Cwd()) in old(Dirs())
      ensures var n := |path.comps| - 1;
              var p, name := MkdirWalk(old(Dirs()), old(Cwd()), path.comps[..n]), path.comps[n];
              if Lookup(old(Dirs()), p, name).Some? then rc == -1 && S() == old(S())
              else
                && rc == 0 && S() == old(S()).(m := M()) && p in Dirs() && Lookup(Dirs(), p, name).Some?
                && var e := Lookup(Dirs(), p, name).value;
                && e.name == name && e.kind == ITYPE_DIR
                && Dirs() == old(Dirs())[p := old(Dirs())[p].(children := old(Dirs())[p].children + [e])]
                                        [e.inode := DirNode(p, [])]
                && e.inode !in old(Live(M())) && (forall k: nat :: k < e.inode ==> k in old(Live(M())))
                && Live(M()) == old(Live(M())) + {e.inode as nat}
                && (exists b: nat :: b !in old(Used(M())) && (forall k: nat :: k < b ==> k in old(Used(M())))
                                     && Used(M()) == old(Used(M())) + {b})
                && Sized(M()) && Sized(old(M()))
                && forall j: iptr :: j in old(Live(M())) && j != p ==> SameView(old(M()).disk, M().disk, j)
    {
      hide SameView, Dirs, SysInv, MetaOk, AllOk, DirMap, Lookup, MkdirStep, CanMkdir, MkdirSteps, MkdirEnds, MkdirWalk,
           MkdirOnlyDirs, Store.Ok, Used, Live, Bits, Sized, Shape, Counted, CanAppend;
      ghost var s := S();
      View();
      var dir, present := FindParent(path.comps);
      if present {
        MkdirRefused(s, path);
        MkdirOutcome(s, path, -1, s);
        return -1;
      }
      CanMkdirFacts(M(), dir.inodeId, Last(path));
      ghost var m1, i, m3, nb := MakeDir(dir, Last(path));
      MkdirDone(s, path, m1, i, m3, nb, S());
      MkdirOutcome(s, path, 0, S());
      View();
      rc := 0;
    }

    // ---- rmdir (src/fs.c:608-665) ----

    /** What cnrmdir relies on: one component, which names a directory if anything. */
    ghost predicate Removable(name: Name)
      requires Valid()
      reads this`cwd, cwd`inodeId, fdTbl, fdBm, store, store.dev, store.dev.blocks, store.blockBm, store.inodeBm
    {
      Anchors();
      && ValidName(name) && name != DOT && name != DOTDOT
      && match Lookup(Dirs(), Cwd(), name) { case None => true case Some(e) => e.inode in Dirs() }
    }

    /** The loop of cnrmdir: copy every record but the named one; when that comes by, give back its block and its
        inode, or stop if it is not empty. */
    method CopyWithout(parent: DirPtr, name: Name, ghost e: Entry) returns (ok: bool, data: seq<byte>, size: nat)
      requires Apart() && store.Ok() && parent.Readable() && TotalLen(parent.Rest()) <= BLOCK_SIZE
      requires UniqueNames(parent.Rest()) && Find(parent.Rest(), name) == Some(e)
      requires e.inode < INODE_COUNT && DataBlock(DirBlock(InodeAt(M().disk, e.inode)))
      modifies parent`index, store, store.dev, store.dev.blocks, store.blockBm, store.inodeBm
      ensures store.Ok() && store.Later() && Sized(old(M()))
      ensures ok <==> InodeAt(old(M()).disk, e.inode).size == 24
      ensures !ok ==> M() == old(M())
      ensures ok ==> Copied(old(parent.Rest()), name, data, size)
      ensures ok ==> M() == Freed(old(M()), DirBlock(InodeAt(old(M()).disk, e.inode)), e.inode) && Dirty(M().disk)
    {
      hide Store.Ok, Chain, Parse, UniqueNames, Find, Copied, Freed, TotalLen, CopyState, Sized, Shape, InodeAt,
           PutRecord, DirPtr.Inside, Le16, Le32;
      store.OkParts();
      ghost var m, all, passed, released := M(), parent.Rest(), [], false;
      data, size := ZeroBytes(BLOCK_SIZE), 0;
      StartOfCopy(m, all, name, e);
      while true
        invariant store.Ok() && store.Later() && parent.Readable()
        invariant CopyState(m, all, passed, parent.Rest(), name, e, released, data, size, M())
        decreases parent.inode.size - parent.index
      {
        RestNames(parent.data, parent.index, parent.inode.size);
        var entry := parent.CnReaddir();
        if entry.None? {
          EndOfCopy(m, all, passed, name, e, released, data, size, M());
          FreedDirty(m, DirBlock(InodeAt(m.disk, e.inode)), e.inode);
          return true, data, size;
        }
        ghost var x := entry.value;
        ok, data, size, released := CopyRecord(entry.value, name, data, size, m, all, passed, parent.Rest(), e,
          released);
        if !ok {
          return;
        }
        passed := passed + [x];
      }
    }

    /** One record of the loop (src/fs.c:633-650). */
    method CopyRecord(x: Entry, name: Name, data: seq<byte>, size: nat, ghost m: Meta, ghost all: seq<Entry>,
            ghost passed: seq<Entry>,
                      ghost rest: seq<Entry>, ghost e: Entry, ghost released: bool)
      returns (ok: bool, data': seq<byte>, size': nat, ghost released': bool)
      requires Apart() && store.Ok() && ValidName(x.name)
      requires CopyState(m, all, passed, [x] + rest, name, e, released, data, size, M())
      modifies store, store.dev, store.dev.blocks, store.blockBm, store.inodeBm
      ensures store.Ok() && store.Later() && Sized(m) && e.inode < INODE_COUNT
      ensures ok ==> CopyState(m, all, passed + [x], rest, name, e, released', data', size', M())
      ensures !ok ==> M() == m && InodeAt(m.disk, e.inode).size != 24
    {
      hide Store.Ok, Freed, CopyState, PutRecord, Shape;
      CopyRound(m, all, passed, x, rest, name, e, released, data, size, M());
      CopyKnows(m, all, passed, [x] + rest, name, e, released, data, size, M());
      ok, data', size', released' := true, data, size, released;
      if x.name == name {
        ok := RemoveTarget(x.inode);
        released' := true;
      } else {
        data' := PutRecord(data, size, x);
        size' := size + EntryLen(|x.name|);
      }
    }

    /** An empty directory's block and inode are given back; nothing happens to another (src/fs.c:637-640). */
    method RemoveTarget(i: iptr) returns (empty: bool)
      requires Apart() && store.Ok() && i < INODE_COUNT && DataBlock(DirBlock(InodeAt(M().disk, i)))
      modifies store, store.dev, store.dev.blocks, store.blockBm, store.inodeBm
      ensures store.Ok() && store.Later() && Sized(old(M())) && (empty <==> InodeAt(old(M()).disk, i).size == 24)
      ensures M() == if empty then Freed(old(M()), DirBlock(InodeAt(old(M()).disk, i)), i) else old(M())
    {
      hide Store.Ok;
      store.OkParts();
      var target := store.InodeRead(i);
      if target.size != 24 {
        return false;
      }
      store.ReleaseBlock(target.data0[0]);
      store.ReleaseInode(i);
      empty := true;
    }

    /** The rewritten directory: its inode, then its one block (src/fs.c:653-654). */
    method WriteParent(p: iptr, n: Inode, data: seq<byte>)
      requires Apart() && store.Ok() && Dirty(M().disk) && p < INODE_COUNT && n.blocks == 1 && n.data1 == 0
               && DataBlock(n.data0[0]) && |data| == BLOCK_SIZE
      modifies store.dev, store.dev.blocks
      ensures store.Ok() && store.Later() && Shape(old(M()).disk)
      ensures M() == old(M()).(disk := PutInode(old(M()).disk, p, n)[n.data0[0] := ByteBlock(data)])
    {
      hide Store.Ok, MetaOk;
      store.OkParts();
      InodeTableIsMap(M().disk, p, n);
      store.InodeWrite(p, n);
      OneBlockStore(M().disk, n, data);
      store.MappedTransfer(M().disk, n, data);
      store.LlWrite(n, data);
    }

    /** Removing an empty directory gives its block and its inode back and leaves the other entries in order; a
        missing name or a directory that is not empty is refused without a trace. */
    method CnRmdir(name: Name) returns (rc: int)
      requires Valid() && Removable(name)
      modifies store, store.dev, store.dev.blocks, store.blockBm, store.inodeBm
      ensures Valid() && store.Later() && RmdirEnds(old(S()), name, rc, S())
      ensures Cwd() == old(Cwd()) && old(Cwd()) in old(Dirs())
      ensures match Lookup(old(Dirs()), old(Cwd()), name)
              case None => rc == -1 && S() == old(S())
              case Some(e) =>
                && e.inode in old(Dirs()) && e.inode < INODE_COUNT
                && Sized(old(M())) && Mapped(InodeAt(old(M()).disk, e.inode))
                && if old(Dirs())[e.inode].children != [] then rc == -1 && S() == old(S())
                   else
                     && rc == 0 && S() == old(S()).(m := M())
                     && Dirs() == old(Dirs())[Cwd() := old(Dirs())[Cwd()].(children :=
                          Without(old(Dirs())[Cwd()].children, name))] - {e.inode}
                     && e.inode in old(Live(M())) && Live(M()) == old(Live(M())) - {e.inode as nat}
                     && (forall b: nat :: b in Used(M()) <==>
                           b in old(Used(M())) && b !in Owned(old(M()).disk, InodeAt(old(M()).disk, e.inode)))
                     && Sized(M())
                     && (forall j: iptr :: j in old(Live(M())) && j != Cwd() && j != e.inode ==>
                           SameView(old(M()).disk, M().disk, j))
    {
      hide SameView, Dirs, SysInv, MetaOk, AllOk, DirMap, Lookup, RmdirStep, RmdirEnds, RmdirSteps, Store.Ok, Lands,
           IsFile,
           FdsOk, Sized, InodeAt, Chain, Parse, UniqueNames, TotalLen, Copied, Freed, Counted, AllEntries, Find, Dirty,
           Tree, PutInode, Used, Live, Bits, Owned, Mapped;
      ghost var s, p := S(), Cwd();
      View();
      RmdirPath(name);
      var parent := CnOpendir(Path(false, [name, DOTDOT]));
      if parent == null {
        RmdirMissing(s, name);
        RmdirOutcome(s, name, -1, s);
        return -1;
      }
      ghost var e := Lookup(Dirs(), p, name).value;
      ShownFromStart(parent, p);
      RmdirFacts(s, name, e);
      var ok, data, size := CopyWithout(parent, name, e);
      if !ok {
        RmdirFull(s, name, e);
        RmdirOutcome(s, name, -1, s);
        return -1;
      }
      ParentBlock(s.m, p);
      CopiedSize(AllEntries(Names(s.m), p), name, data, size);
      WriteParent(parent.inodeId, parent.inode.(size := size), data);
      RmdirDone(s, name, e, data, size, S());
      RmdirOutcome(s, name, 0, S());
      View();
      rc := 0;
    }

    /** "name/..": back here when the name is there, nothing when it is not. */
    lemma RmdirPath(name: Name)
      requires Valid() && Removable(name)
      ensures match Lookup(Dirs(), Cwd(), name)
              case None => Lands(Path(false, [name, DOTDOT])) == Nowhere
              case Some(e) => Lands(Path(false, [name, DOTDOT])) == At(Cwd(), false)
    {
      Facts();
      hide MetaOk, AllOk, DirMap, Lookup, Valid, Reach, Follow;
      ThereAndBack(M(), Cwd(), name);
    }

    // ---- descriptors ----

    /** src/fs.c:795-808 */
    method CnClose(fd: nat) returns (rc: int)
      requires Valid() && fd < MAX_FD
      modifies fdTbl, fdBm
      ensures Valid() && CloseStep(old(S()), fd, S())
      ensures if old(fdTbl[fd]).state == FD_FREE then rc == -1 && S() == old(S())
              else
                && rc == 0 && fdTbl[..] == old(fdTbl[..])[fd := old(fdTbl[fd]).(state := FD_FREE)]
                && Bits(fdBm[..]) == old(Bits(fdBm[..])) - {fd}
    {
      hide SysInv, Store.Ok, Bits;
      ghost var s := S();
      FdCount();
      if fdTbl[fd].state == FD_FREE {
        return -1;
      }
      ClearBitmap(fdBm, fd);
      fdTbl[fd] := fdTbl[fd].(state := FD_FREE);
      rc := 0;
      assert CloseStep(s, fd, S());
      CloseKeeps(s, fd, S());
    }

    lemma FdCount()
      requires Valid()
      ensures |S().fds| == MAX_FD && 8 * |S().fdBm| == MAX_FD && SysInv(S())
    {
      hide MetaOk, Store.Ok;
    }

    /** src/fs.c:811-831. Whatever the cursor, the bytes come from the cache and the cursor moves by their number; the
        system stays in order exactly when the read starts below the size or asks for nothing. */
    method CnRead(fd: nat, bytes: nat) returns (buf: seq<byte>)
      requires Valid() && fd < MAX_FD && (fdTbl[fd].state == FD_READ ==> ReadFits(fdTbl[fd], bytes))
      modifies fdTbl
      ensures old(fdTbl[fd]).state != FD_READ ==> buf == [] && fdTbl[..] == old(fdTbl[..]) && Valid()
      ensures old(fdTbl[fd]).state == FD_READ ==>
                && buf == Delivered(old(fdTbl[fd]), bytes)
                && (buf != [] ==> old(fdTbl[fd]).cursor + |buf| <= |old(fdTbl[fd]).data|
                                  && buf == old(fdTbl[fd]).data[old(fdTbl[fd]).cursor..old(fdTbl[fd]).cursor + |buf|])
                && var bound := (old(fdTbl[fd]).inode.size - (old(fdTbl[fd]).cursor + 1)) % TWO32;
                   |buf| == if bytes > bound then bound else bytes
      ensures old(fdTbl[fd]).state == FD_READ ==>
                && fdTbl[..] == old(fdTbl[..])[fd := old(fdTbl[fd]).(cursor := old(fdTbl[fd]).cursor + |buf|)]
                && (Valid() <==> old(fdTbl[fd]).cursor < old(fdTbl[fd]).inode.size || bytes == 0)
      ensures Valid() ==> ReadStep(old(S()), fd, bytes, S())
    {
      hide SysInv, Store.Ok, MetaOk, FdOk, Sized;
      ghost var s := S();
      FdCount();
      var f := fdTbl[fd];
      if f.state != FD_READ {
        return [];
      }
      FdUsable(s, fd);
      FdSmall(s.m, s.fds[fd]);
      var bound := (f.inode.size - (f.cursor + 1)) % TWO32;
      var bytesToRead := if bytes > bound then bound else bytes;
      buf := f.data[f.cursor..f.cursor + bytesToRead];
      fdTbl[fd] := f.(cursor := f.cursor + bytesToRead);
      ReadKeepsWhen(s, fd, bytes, S());
    }

    /** src/fs.c:117-129: a zeroed buffer that starts with the bytes of the old one, if there is one. */
    method GrowCache(fd: nat, needed: nat)
      requires fd < fdTbl.Length && fdTbl[fd].inode.size <= |fdTbl[fd].data|
               && fdTbl[fd].inode.size <= BLOCK_SIZE * needed
      modifies fdTbl
      ensures fdTbl[..] == old(fdTbl[..])[fd := old(fdTbl[fd]).(data := ReallocCache(old(fdTbl[fd]), needed))]
    {
      var f := fdTbl[fd];
      var newData := ZeroBytes(BLOCK_SIZE * needed);
      if f.data != [] {
        newData := f.data[..f.inode.size] + newData[f.inode.size..];
      }
      assert newData == ReallocCache(f, needed);
      fdTbl[fd] := f.(data := newData);
    }

    /** The first half of cnseek and of cnwrite (src/fs.c:838-855, 869-886): cache and blocks for `required` bytes. */
    method MakeRoom(fd: nat, required: nat)
      requires Apart() && store.Ok() && fd < MAX_FD && CanExtend(M(), fdTbl[fd], required)
      modifies fdTbl, store, store.dev, store.dev.blocks, store.blockBm, store.inodeBm
      ensures store.Ok() && store.Later() && fdTbl[..] == old(fdTbl[..])[fd := fdTbl[fd]]
      ensures Resized(old(M()), old(fdTbl[fd]), required, M(), fdTbl[fd])
    {
      hide Store.Ok, CanExtend, Resized, ExtendSteps, MetaOk, Sized;
      ghost var m, f := M(), fdTbl[fd];
      if fdTbl[fd].inode.size < required {
        Enlarge(fd, required);
      } else {
        NoRoomNeeded(m, f, required);
      }
    }

    lemma NoRoomNeeded(m: Meta, f: FdEntry, required: nat)
      requires required <= f.inode.size
      ensures Resized(m, f, required, m, f)
    {
      assert ExtendSteps(m, f, required, m, f.inode, [], [], m, f);
    }

    /** The branch that grows the file. */
    method Enlarge(fd: nat, required: nat)
      requires Apart() && store.Ok() && fd < MAX_FD && CanExtend(M(), fdTbl[fd], required)
               && fdTbl[fd].inode.size < required
      modifies fdTbl, store, store.dev, store.dev.blocks, store.blockBm, store.inodeBm
      ensures store.Ok() && store.Later() && fdTbl[..] == old(fdTbl[..])[fd := fdTbl[fd]]
      ensures Resized(old(M()), old(fdTbl[fd]), required, M(), fdTbl[fd])
    {
      hide Store.Ok, CanExtend, Grown, CanGrow, Counted, ReallocCache, MetaOk, Resized;
      ghost var m, f := M(), fdTbl[fd];
      var requiredBlocks := required / BLOCK_SIZE + 1;
      RoomFacts(m, f, required);
      GrowCache(fd, requiredBlocks);
      var n := fdTbl[fd].inode.(size := required);
      ghost var added, taken: seq<iptr> := [], [];
      if n.blocks < requiredBlocks {
        n, added, taken := store.ReallocFsBlocks(n, requiredBlocks);
      }
      ghost var m1, f' := M(), fdTbl[fd].(inode := n);
      store.OkParts();
      store.InodeWrite(fdTbl[fd].inodeId, n);
      Enlarged(m, f, required, m1, n, added, taken, M(), f');
      fdTbl[fd] := fdTbl[fd].(inode := n);
    }

    lemma Enlarged(m: Meta, f: FdEntry, required: nat, m1: Meta, n1: Inode, added: seq<iptr>, taken: seq<iptr>, r: Meta,
            f': FdEntry)
      requires CanExtend(m, f, required) && ExtendSteps(m, f, required, m1, n1, added, taken, r, f')
      ensures Resized(m, f, required, r, f') && MetaOk(r)
    {
      hide CanExtend, ExtendSteps, MetaOk;
      RoomInOrder(m, f, required, r, f');
    }

    lemma RoomInOrder(m: Meta, f: FdEntry, required: nat, r: Meta, f': FdEntry)
      requires CanExtend(m, f, required) && Resized(m, f, required, r, f')
      ensures MetaOk(r)
    {
      hide Resized, OthersKept, MetaOk;
      ResizedOk(m, f, required, r, f');
      OthersKeptOk(m, r, f.inodeId);
    }

    /** src/fs.c:835-860: the size comes from cursor + offset, the cursor from offset; every old byte is kept and
        zeros are exposed. */
    method CnSeek(fd: nat, offset: nat) returns (rc: int)
      requires Valid() && fd < MAX_FD && InUse(fdTbl[fd]) && Room(M(), fdTbl[fd], fdTbl[fd].cursor + offset)
      modifies fdTbl, store, store.dev, store.dev.blocks, store.blockBm, store.inodeBm
      ensures rc == 0 && Valid() && store.Later() && SeekStep(old(S()), fd, offset, S())
      ensures Sought(old(M()), old(fdTbl[fd]), M(), fdTbl[fd], offset)
      ensures fdTbl[..] == old(fdTbl[..])[fd := fdTbl[fd]] && Dirs() == old(Dirs()) && Live(M()) == old(Live(M()))
      ensures var f, f' := old(fdTbl[fd]), fdTbl[fd];
              && f'.state == f.state && f'.inodeId == f.inodeId && f'.cursor == offset
              && f'.inode.size == (if f.inode.size < f.cursor + offset then f.cursor + offset else f.inode.size)
              && f.inode.size <= |f.data| && f'.inode.size <= |f'.data|
              && f'.data[..f.inode.size] == f.data[..f.inode.size]
              && (forall j :: f.inode.size <= j < f'.inode.size ==> f'.data[j] == 0)
              && Sized(M()) && f'.inodeId < INODE_COUNT && InodeAt(M().disk, f'.inodeId) == f'.inode
      ensures Sized(old(M()))
      ensures forall j: iptr :: j in old(Live(M())) && j != old(fdTbl[fd]).inodeId ==>
                SameView(old(M()).disk, M().disk, j)
    {
      hide SameView, Dirs, SysInv, Store.Ok, Resized, Sought, OthersKept, CanExtend, MetaOk, FdOk, Sized, Room, AllOk,
           DirMap, Shape;
      ghost var s := S();
      View();
      FdCount();
      Extendable(s, fd, fdTbl[fd].cursor + offset);
      MakeRoom(fd, fdTbl[fd].cursor + offset);
      ghost var f1 := fdTbl[fd];
      fdTbl[fd] := fdTbl[fd].(cursor := offset);
      rc := 0;
      assert S().fds[fd] == f1.(cursor := offset);
      assert SeekStep(s, fd, offset, S());
      SeekKeeps(s, fd, offset, S());
      SeekOutcome(s, fd, offset, S());
      View();
    }

    /** src/fs.c:864-896: content[..c] + buf + content[c + len..], the cursor advanced, the disk equal to the cache. */
    method CnWrite(fd: nat, buf: seq<byte>) returns (written: nat)
      requires Valid() && fd < MAX_FD && (fdTbl[fd].state == FD_WRITE ==>
               Room(M(), fdTbl[fd], fdTbl[fd].cursor + |buf|))
      modifies fdTbl, store, store.dev, store.dev.blocks, store.blockBm, store.inodeBm
      ensures Valid() && store.Later() && WriteStep(old(S()), fd, buf, S())
      ensures written == if old(fdTbl[fd]).state == FD_WRITE then |buf| else 0
      ensures old(fdTbl[fd]).state == FD_WRITE ==> Written(old(M()), old(fdTbl[fd]), M(), fdTbl[fd], buf)
      ensures old(fdTbl[fd]).state != FD_WRITE ==> S() == old(S())
      ensures fdTbl[..] == old(fdTbl[..])[fd := fdTbl[fd]] && Dirs() == old(Dirs()) && Live(M()) == old(Live(M()))
      ensures old(fdTbl[fd]).state == FD_WRITE ==>
              && var f, f' := old(fdTbl[fd]), fdTbl[fd];
              && f'.state == f.state && f'.inodeId == f.inodeId && f'.cursor == f.cursor + |buf|
              && f'.inode.size == (if f.inode.size < f.cursor + |buf| then f.cursor + |buf| else f.inode.size)
              && f.cursor <= f.inode.size <= |f.data| && f'.inode.size <= |f'.data|
              && f'.data[..f.cursor] == f.data[..f.cursor] && f'.data[f.cursor..f.cursor + |buf|] == buf
              && (forall j :: f.cursor + |buf| <= j < f.inode.size ==> f'.data[j] == f.data[j])
              && Sized(M()) && f'.inodeId < INODE_COUNT && InodeAt(M().disk, f'.inodeId) == f'.inode
              && Mapped(f'.inode) && InData(BlockList(M().disk, f'.inode)) && Load(M().disk, f'.inode) == f'.data
    {
      hide SameView, Dirs, SysInv, Store.Ok, Resized, PutThrough, Written, OthersKept, CanExtend, MetaOk, FdOk, Sized,
           Room, Load,
           BlockList, InData, Mapped, AllOk, DirMap, WellMapped, Shape;
      ghost var s := S();
      View();
      FdCount();
      if fdTbl[fd].state != FD_WRITE {
        WriteKeeps(s, fd, buf, s);
        View();
        return 0;
      }
      Extendable(s, fd, fdTbl[fd].cursor + |buf|);
      MakeRoom(fd, fdTbl[fd].cursor + |buf|);
      ghost var m1, f1 := M(), fdTbl[fd];
      RoomMade(s, fd, m1, f1, |buf|);
      PutCache(fd, buf);
      assert WriteStep(s, fd, buf, S());
      WriteKeeps(s, fd, buf, S());
      WriteOutcome(s, fd, buf, S());
      View();
      written := |buf|;
    }

    /** src/fs.c:888-891 */
    method PutCache(fd: nat, buf: seq<byte>)
      requires Apart() && store.Ok() && fd < MAX_FD && fdTbl[fd].cursor + |buf| <= |fdTbl[fd].data|
      requires WellMapped(M().disk, fdTbl[fd].inode) && |fdTbl[fd].data| == BLOCK_SIZE * fdTbl[fd].inode.blocks
      requires MetaOk(M()) && FdOk(M(), fdTbl[fd])
      modifies fdTbl, store.dev, store.dev.blocks
      ensures store.Ok() && store.Later() && fdTbl[..] == old(fdTbl[..])[fd := fdTbl[fd]]
      ensures PutThrough(old(M()), old(fdTbl[fd]), buf, M(), fdTbl[fd])
    {
      hide Store.Ok, WellMapped, MetaOk;
      store.OkParts();
      ghost var m1, f1 := M(), fdTbl[fd];
      MappedParts(m1.disk, f1.inode);
      var c := fdTbl[fd].cursor;
      var data := fdTbl[fd].data[..c] + buf + fdTbl[fd].data[c + |buf|..];
      SafeToWrite(m1, f1, data);
      fdTbl[fd] := fdTbl[fd].(data := data, cursor := c + |buf|);
      store.LlWrite(fdTbl[fd].inode, fdTbl[fd].data);
    }

    lemma SafeToWrite(m: Meta, f: FdEntry, data: seq<byte>)
      requires MetaOk(m) && Sized(m) && FdOk(m, f) && WellMapped(m.disk, f.inode)
               && |data| == |f.data| == BLOCK_SIZE * f.inode.blocks
      ensures store.Transfer(m.disk, f.inode, data) && store.Safe(m, f.inode, data)
    {
      hide MetaOk, WellMapped, Partly, BlockList, FdOk, InData;
      store.MappedTransfer(m.disk, f.inode, data);
      PartsOk(m, f, data);
    }

    // ---- open (src/fs.c:759-790) ----

    /** What cnopen relies on: a fresh handle, room for a new name, a file that is not open, a free descriptor. */
    ghost predicate Openable(dir: DirPtr, name: Name, mode: nat)
      requires Valid()
      reads this`cwd, cwd`inodeId, fdTbl, fdBm, dir, store, store.dev, store.dev.blocks, store.blockBm, store.inodeBm
    {
      && (mode == FD_READ || mode == FD_WRITE)
      && dir.inodeId in Dirs() && dir.Shows(M(), dir.inodeId)
      && (match Lookup(Dirs(), dir.inodeId, name)
          case None => mode == FD_WRITE ==> CanCreat(M(), dir.inodeId, name)
          case Some(e) => NoneOpen(fdTbl[..], {e.inode}))
      && exists k: nat :: k < MAX_FD && !InUse(fdTbl[k])
    }

    /** The inode of a file and all its bytes (src/fs.c:775-785); an empty file has no buffer. */
    method LoadFile(i: iptr) returns (n: Inode, data: seq<byte>)
      requires Apart() && store.Ok() && Shape(M().disk) && Inflates(M().disk, i)
      ensures i < INODE_COUNT && Shape(M().disk) && n == InodeAt(M().disk, i) && Mapped(n)
              && InData(BlockList(M().disk, n))
      ensures data == Load(M().disk, n)
    {
      hide Store.Ok, Load, Content;
      store.OkParts();
      n := store.InodeRead(i);
      data := [];
      if n.blocks > 0 {
        data := store.LlRead(n);
      } else {
        NothingLoaded(M().disk, n);
      }
    }

    /** The least free descriptor comes to hold file i, or directory i. */
    method OpenFd(i: iptr, mode: nat) returns (fd: nat)
      requires Valid() && Inflatable(i) && NoneOpen(fdTbl[..], {i}) && mode != FD_FREE
      requires exists k: nat :: k < MAX_FD && !InUse(fdTbl[k])
      modifies fdTbl, fdBm
      ensures Apart() && store.Ok() && Sized(old(M())) && FdOpened(old(S()), i, mode, S())
              && fd == FirstFree(old(fdBm[..]))
    {
      hide SysInv, Store.Ok, Opened, NoneOpen, Load, BlockList, InData, Mapped, Shape, FirstFree, Bits, FdOpened,
           MetaOk, AllOk, Sized, Inflates;
      ghost var s := S();
      FdCount();
      Named();
      FreeBit(s);
      fd := FindFreeBit(fdBm);
      LeastFd(s, fd);
      SetBitmap(fdBm, fd);
      var n, data := LoadFile(i);
      fdTbl[fd] := FdEntry(mode, i, n, 0, data);
      FdIsOpened(s, i, mode, fd, n, data, S());
    }

    /** What the name denotes is opened; a missing name is created first when writing, and refused when reading. The
        system stays in order exactly when the name does not denote a directory. */
    method CnOpen(dir: DirPtr, name: Name, mode: nat) returns (fd: int)
      requires Valid() && Openable(dir, name, mode)
      modifies dir`index, dir`inode, dir`data, fdTbl, fdBm, store, store.dev, store.dev.blocks, store.blockBm,
               store.inodeBm
      ensures store.Later() && OpenEnds(old(S()), dir.inodeId, name, mode, fd, S())
      ensures Valid() <==> NoDirectory(old(Dirs()), old(dir.inodeId), name)
      ensures dir.inodeId in old(Dirs()) && Cwd() == old(Cwd())
      ensures fd < 0 <==> Lookup(old(Dirs()), dir.inodeId, name).None? && mode != FD_WRITE
      ensures fd < 0 ==> fd == -1 && S() == old(S())
      ensures Lookup(old(Dirs()), dir.inodeId, name).Some? ==> M() == old(M())
      ensures fd >= 0 ==>
                && Sized(M()) && AllOk(M().disk, Live(M())) && dir.inodeId in Names(M())
                && Lookup(Names(M()), dir.inodeId, name).Some?
                && var i := Lookup(Names(M()), dir.inodeId, name).value.inode;
                && i < INODE_COUNT && Mapped(InodeAt(M().disk, i)) && InData(BlockList(M().disk, InodeAt(M().disk, i)))
                && fd < MAX_FD && fdTbl[..] == old(fdTbl[..])[fd :=
                     FdEntry(mode, i, InodeAt(M().disk, i), 0, Load(M().disk, InodeAt(M().disk, i)))]
      ensures fd >= 0 ==>
                && Bits(fdBm[..]) == old(Bits(fdBm[..])) + {fd as nat} && old(fdTbl[..])[fd].state == FD_FREE
                && forall k :: 0 <= k < fd ==> old(fdTbl[..])[k].state != FD_FREE
      ensures Lookup(old(Dirs()), dir.inodeId, name).None? && fd >= 0 ==>
                && var p, e := dir.inodeId, Lookup(Names(M()), dir.inodeId, name).value;
                && e.kind == ITYPE_FILE && e.name == name
                && Names(M()) == old(Dirs())[p := old(Dirs())[p].(children := old(Dirs())[p].children + [e])]
                && InodeAt(M().disk, e.inode) == Inode(ITYPE_FILE, 0, 0, [0, 0, 0, 0, 0, 0, 0, 0], 0, 0)
    {
      hide Dirs, SysInv, MetaOk, AllOk, DirMap, Chain, Parse, Find, Lookup, OpenStep, CanCreat, CreatEnds, OpenEnds,
           FdOpened, NoneOpen, IsFile, Store.Ok, NoDirectory, Inflatable, Sized, Search, Used, Live, Bits, Load,
             BlockList,
           InData, Mapped, Shape;
      ghost var s, p := S(), dir.inodeId;
      View();
      Handled(dir, name);
      var rc, id := dir.CnStat(name);
      if rc != 0 {
        if mode != FD_WRITE {
          OpenRefused(s, p, name, mode);
          OpenOrder(s, p, name, mode, -1, s);
          OpenOutcome(s, p, name, mode, -1, s);
          return -1;
        }
        CanCreatIndex(s, p, name);
        rc := CnCreat(dir, name);
        ghost var s1 := S();
        View();
        ghost var i := CreatedFile(s, p, name, rc, s1);
        Handled(dir, name);
        rc, id := dir.CnStat(name);
        CanInflate(id);
        fd := OpenFd(id, mode);
        OpenCreated(s, p, name, s1, i, mode, S());
        OpenOrder(s, p, name, mode, fd, S());
        OpenOutcome(s, p, name, mode, fd, S());
        return;
      }
      FoundInflates(p, name);
      fd := OpenFd(id, mode);
      OpenFound(s, p, name, mode, S());
      OpenOrder(s, p, name, mode, fd, S());
      OpenOutcome(s, p, name, mode, fd, S());
    }

    lemma FoundInflates(p: iptr, name: Name)
      requires Valid() && p in Dirs() && Lookup(Dirs(), p, name).Some?
      ensures Inflatable(Lookup(Dirs(), p, name).value.inode)
    {
      Facts();
      hide MetaOk, AllOk, DirMap, Valid, SysInv, IsFile, Lookup, Inflatable;
      if Lookup(Dirs(), p, name).value.inode !in Dirs() { FoundFile(M(), p, name); }
      CanInflate(Lookup(Dirs(), p, name).value.inode);
    }

    // ---- mount and unmount (src/fs.c:183-213) ----

    /** Caches read, descriptors reset, at the root. `good` tells whether the volume was marked clean. */
    method CnMount() returns (rc: int)
      requires Apart() && store.Parts() && Mountable(M().disk)
      modifies this`good, this`cwd, fdTbl, fdBm, store, store.dev, store.dev.blocks, store.blockBm, store.inodeBm
      ensures rc == 0 && Valid() && M() == Mounted(old(M()).disk) && AtRest(S())
      ensures Cwd() == INODE_ROOTDIR && Bits(fdBm[..]) == {} && forall k :: 0 <= k < MAX_FD ==>
              fdTbl[..][k].state == FD_FREE
      ensures M().disk == old(M()).disk && M().super == old(M()).disk[BLOCKID_SUPER].sb.(state := ERROR_FS)
      ensures M().blockBm == old(M()).disk[BLOCKID_BLOCK_BITMAP].bits
              && M().inodeBm == old(M()).disk[BLOCKID_INODE_BITMAP].bits
      ensures store.dev.history == old(store.dev.history)
      ensures good <==> old(M()).disk[BLOCKID_SUPER].sb.state == VALID_FS
    {
      hide Valid, MetaOk, SysInv, Mounted, Store.Ok, Lands, Dirs, Inflates, Load, Mountable, AtRest, Bits, Shape;
      ghost var d := M().disk;
      good := Restart();
      RootPath();
      var root := CnOpendir(Path(true, []));
      RootCwd(root);
      MountOutcome(d, S());
      cwd := root;
      rc := 0;
      MountedValid();
    }

    /** Everything but the current directory, which is blank for the moment. */
    method Restart() returns (clean: bool)
      requires Apart() && store.Parts() && Mountable(M().disk)
      modifies this`cwd, fdTbl, fdBm, store, store.dev, store.dev.blocks, store.blockBm, store.inodeBm
      ensures Valid() && M() == Mounted(old(M()).disk) && AtRest(S()) && fresh(cwd)
      ensures store.dev.history == old(store.dev.history)
      ensures clean <==> old(M()).disk[BLOCKID_SUPER].sb.state == VALID_FS
    {
      hide MetaOk, SysInv, Mounted, Store.Ok;
      ghost var d := M().disk;
      clean := store.Mount();
      ResetFds();
      cwd := new DirPtr();
      RestMounted(Mounted(d), S());
    }

    lemma RootCwd(root: DirPtr?)
      requires Valid() && AtRest(S()) && root != null && root.Shows(M(), INODE_ROOTDIR)
      ensures root.inodeId == Cwd() == INODE_ROOTDIR && Apart() && store.Ok() && SysInv(S())
    {
    }

    method ResetFds()
      requires Apart()
      modifies fdTbl, fdBm
      ensures forall k :: 0 <= k < MAX_FD ==> fdTbl[..][k].state == FD_FREE
      ensures forall k :: 0 <= k < fdBm.Length ==> fdBm[..][k] == 0
    {
      forall k | 0 <= k < fdTbl.Length {
        fdTbl[k] := FdEntry(FD_FREE, 0, EmptyFile(), 0, []);
      }
      forall k | 0 <= k < fdBm.Length {
        fdBm[k] := 0;
      }
    }

    lemma MountedValid()
      requires Apart() && store.Ok() && SysInv(S())
      ensures Valid()
    {
    }

    lemma RootPath()
      requires Valid()
      ensures Lands(Path(true, [])) == At(INODE_ROOTDIR, false) && INODE_ROOTDIR in Dirs()
    {
      Facts();
      hide MetaOk, AllOk, DirMap, Valid;
      DirInflates(M(), INODE_ROOTDIR);
      ReachNothing(M().disk, INODE_ROOTDIR);
    }

    /** The clean flag, then the bitmaps that the disk already holds; every image on the way is honest. */
    method CnUmount() returns (rc: int)
      requires Valid()
      modifies store, store.dev, store.dev.blocks, store.blockBm, store.inodeBm
      ensures rc == 0 && store.Parts() && store.Later() && M() == Unmounted(old(M()))
      ensures |old(M()).disk| == BD_SIZE_BLOCKS
              && M().disk == old(M()).disk[BLOCKID_SUPER := SuperBlock(old(M()).super.(state := VALID_FS))]
      ensures Mountable(M().disk) && AllHonest(store.dev.history[store.epoch..])
    {
      hide MetaOk, Unmounted;
      Facts();
      OrderFlushed(M());
      UmountImages(M());
      store.Umount();
      rc := 0;
    }
  }
}
