/** The whole file system between two calls, what each call does to it, and what every run keeps. */
module System {
  import opened Params
  import opened Bitmap
  import opened Layout
  import opened BlockMap
  import opened Allocator
  import opened Dirent
  import opened Namespace
  import opened Volume
  import opened VolumeOps
  import opened OpenFile
  import opened FileOps
  import opened ReadOps
  import opened Coherence
  import opened MetaOps
  import opened Steps
  import opened Paths
  import opened Walks

  /** Device and metadata caches, descriptor table and its bitmap, current directory. */
  datatype Sys = Sys(m: Meta, fds: seq<FdEntry>, fdBm: seq<bv8>, cwd: iptr)

  predicate InUse(f: FdEntry) { f.state != FD_FREE }

  /** Bit k is set iff descriptor k is in use; descriptors in use mirror live files, one each. */
  ghost predicate FdsOk(m: Meta, fds: seq<FdEntry>, fdBm: seq<bv8>)
    requires Sized(m)
  {
    && |fds| == MAX_FD && 8 * |fdBm| == MAX_FD
    && (forall k: nat :: k < MAX_FD ==> (k in Bits(fdBm) <==> InUse(fds[k])))
    && (forall k: nat :: k < MAX_FD && InUse(fds[k]) ==> FdOk(m, fds[k]))
    && (forall j: nat, k: nat :: j < k < MAX_FD && InUse(fds[j]) && InUse(fds[k]) ==> fds[j].inodeId != fds[k].inodeId)
  }

  ghost predicate SysInv(s: Sys) {
    MetaOk(s.m) && FdsOk(s.m, s.fds, s.fdBm) && s.cwd in Names(s.m)
  }

  // ---- descriptors across changes to the volume ----

  /** Every inode outside t is intact. */
  ghost predicate KeptBut(m: Meta, r: Meta, t: set<iptr>)
    requires Sized(m) && Sized(r)
  {
    forall j: iptr :: j in Live(m) && j !in t ==> j in Live(r) && SameView(m.disk, r.disk, j)
  }

  ghost predicate NoneOpen(fds: seq<FdEntry>, t: set<iptr>) {
    forall k: nat :: k < |fds| && InUse(fds[k]) ==> fds[k].inodeId !in t
  }

  lemma FdsKept(m: Meta, r: Meta, fds: seq<FdEntry>, fdBm: seq<bv8>, t: set<iptr>)
    requires Sized(m) && Sized(r) && FdsOk(m, fds, fdBm) && KeptBut(m, r, t) && NoneOpen(fds, t)
    ensures FdsOk(r, fds, fdBm)
    ensures forall k: nat :: k < |fds| && InUse(fds[k]) && Coherent(m, fds[k]) ==> Coherent(r, fds[k])
  {
    hide SameView, FdOk, Coherent;
    forall k: nat | k < MAX_FD && InUse(fds[k])
      ensures FdOk(r, fds[k]) && (Coherent(m, fds[k]) ==> Coherent(r, fds[k]))
    {
      OneFdKept(m, r, fds[k], t);
    }
  }

  lemma OneFdKept(m: Meta, r: Meta, f: FdEntry, t: set<iptr>)
    requires Sized(m) && Sized(r) && FdOk(m, f) && KeptBut(m, r, t) && f.inodeId !in t
    ensures FdOk(r, f) && (Coherent(m, f) ==> Coherent(r, f))
  {
    hide SameView;
    DescriptorKept(m, r, f);
  }

  /** An open descriptor is on a file, never on a directory. */
  lemma NoDirOpen(m: Meta, fds: seq<FdEntry>, fdBm: seq<bv8>, p: iptr)
    requires MetaOk(m) && FdsOk(m, fds, fdBm) && p in Names(m)
    ensures NoneOpen(fds, {p})
  {
    hide AllOk, Tree, Partition;
    DirMapMember(m.disk, Live(m), p);
  }

  /** One descriptor and its file changed, all others intact. */
  lemma FdChanged(m: Meta, r: Meta, fds: seq<FdEntry>, fdBm: seq<bv8>, k: nat, f: FdEntry)
    requires Sized(m) && Sized(r) && FdsOk(m, fds, fdBm) && k < MAX_FD && InUse(fds[k])
    requires FdOk(r, f) && f.state == fds[k].state && f.inodeId == fds[k].inodeId
    requires KeptBut(m, r, {f.inodeId})
    ensures FdsOk(r, fds[k := f], fdBm)
  {
    hide SameView, FdOk, Coherent;
    var fds' := fds[k := f];
    forall j: nat | j < MAX_FD && InUse(fds'[j]) ensures FdOk(r, fds'[j]) {
      if j != k { OneFdKept(m, r, fds[j], {f.inodeId}); }
    }
  }

  /** A descriptor taken for a file that no other one is on. */
  lemma FdTaken(m: Meta, fds: seq<FdEntry>, fdBm: seq<bv8>, k: nat, f: FdEntry)
    requires Sized(m) && FdsOk(m, fds, fdBm) && k < |fds| && !InUse(fds[k]) && InUse(f)
    requires FdOk(m, f) && NoneOpen(fds, {f.inodeId})
    ensures FdsOk(m, fds[k := f], SetBit(fdBm, k))
  {
    hide FdOk;
    SetBitIsInsert(fdBm, k);
  }

  lemma FdGivenBack(m: Meta, fds: seq<FdEntry>, fdBm: seq<bv8>, k: nat, f: FdEntry)
    requires Sized(m) && FdsOk(m, fds, fdBm) && k < |fds| && !InUse(f)
    ensures FdsOk(m, fds[k := f], ClearBit(fdBm, k))
  {
    hide FdOk;
    ClearBitIsRemove(fdBm, k);
  }

  // ---- the calls ----

  /** mkdir by path, rmdir and cd from the current directory; creat and open by name in the directory p of a
      handle; the rest by descriptor. */
  datatype Op =
    | Mkdir(path: Path)
    | Rmdir(name: Name)
    | Cd(path: Path)
    | Creat(p: iptr, name: Name)
    | Open(p: iptr, name: Name, mode: nat)
    | Close(fd: nat)
    | Read(fd: nat, bytes: nat)
    | Seek(fd: nat, offset: nat)
    | Write(fd: nat, buf: seq<byte>)

  /** cnmkdir (src/fs.c:493-605), which does not look at a leading slash: -1 without a trace when the last name
      exists. */
  ghost predicate MkdirStep(s: Sys, path: Path, t: Sys)
    requires SysInv(s)
  {
    && path.comps != [] && MkdirOnlyDirs(Names(s.m), s.cwd, Via(path))
    && var p, name := MkdirWalk(Names(s.m), s.cwd, Via(path)), Last(path);
       if Lookup(Names(s.m), p, name).Some? then t == s
       else
         && CanMkdir(s.m, p, name) && t == s.(m := t.m)
         && exists m1, i, m3, nb :: MkdirSteps(s.m, p, name, m1, i, m3, nb, t.m)
  }

  /** cnrmdir of one component (src/fs.c:608-665): -1 without a trace when it is missing or not empty. */
  ghost predicate RmdirStep(s: Sys, name: Name, t: Sys)
    requires SysInv(s)
  {
    && ValidName(name) && name != DOT && name != DOTDOT
    && match Lookup(Names(s.m), s.cwd, name)
       case None => t == s
       case Some(e) =>
         && e.inode in Names(s.m)
         && if Names(s.m)[e.inode].children != [] then t == s
            else RmdirSteps(s.m, s.cwd, e, t.m) && t == s.(m := t.m)
  }

  /** What cncd does (src/fs.c:473-483): wherever the walk ends becomes the current directory, a file as well. A walk
      that is lost in bytes that are no records has no outcome. */
  ghost predicate CdCode(s: Sys, path: Path, t: Sys)
    requires SysInv(s)
  {
    match Reach(s.m.disk, Start(s.cwd, path), path.comps)
    case Nowhere => t == s
    case At(i, exhausted) => t == s.(cwd := i)
    case Lost => false
  }

  /** cncd that ends with nothing or in a directory. */
  ghost predicate CdStep(s: Sys, path: Path, t: Sys)
    requires SysInv(s)
  {
    CdCode(s, path, t) && t.cwd in Names(s.m)
  }

  /** cncreat (src/fs.c:718-755): -1 without a trace when the name exists. */
  ghost predicate CreatStep(s: Sys, p: iptr, name: Name, t: Sys)
    requires SysInv(s)
  {
    && p in Names(s.m)
    && if Lookup(Names(s.m), p, name).Some? then t == s
       else
         && CanCreat(s.m, p, name) && t == s.(m := t.m)
         && exists m1, i :: CreatSteps(s.m, p, name, m1, i, t.m)
  }

  /** The least free descriptor comes to hold the whole file i (src/fs.c:770-786). */
  ghost predicate FdOpened(s: Sys, i: iptr, mode: nat, t: Sys)
    requires Sized(s.m)
  {
    && i < INODE_COUNT && mode != FD_FREE
    && Mapped(InodeAt(s.m.disk, i)) && InData(BlockList(s.m.disk, InodeAt(s.m.disk, i)))
    && NoneOpen(s.fds, {i})
    && var k := FirstFree(s.fdBm);
       && k < |s.fds| && k < 8 * |s.fdBm| && !InUse(s.fds[k])
       && t == s.(fds := s.fds[k := Opened(s.m, i, mode)], fdBm := SetBit(s.fdBm, k))
  }

  /** cnopen (src/fs.c:759-790): a missing name is created when writing and refused when reading. The kind of what the
      name denotes is not looked at. */
  ghost predicate OpenCode(s: Sys, p: iptr, name: Name, mode: nat, t: Sys)
    requires SysInv(s)
  {
    && p in Names(s.m)
    && match Lookup(Names(s.m), p, name)
       case Some(e) => FdOpened(s, e.inode, mode, t)
       case None =>
         if mode != FD_WRITE then t == s
         else
           && CanCreat(s.m, p, name)
           && exists m1, i :: Sized(t.m) && CreatSteps(s.m, p, name, m1, i, t.m) && FdOpened(s.(m := t.m), i, mode, t)
  }

  /** cnopen of a name that denotes a file, or nothing. */
  ghost predicate OpenStep(s: Sys, p: iptr, name: Name, mode: nat, t: Sys)
    requires SysInv(s)
  {
    OpenCode(s, p, name, mode, t) && NoDirectory(Names(s.m), p, name)
  }

  predicate NoDirectory(nodes: Nodes, p: iptr, name: Name)
    requires p in nodes
  {
    match Lookup(nodes, p, name) { case None => true case Some(e) => e.inode !in nodes }
  }

  ghost predicate CloseStep(s: Sys, k: nat, t: Sys) {
    && k < |s.fds| && k < 8 * |s.fdBm|
    && if !InUse(s.fds[k]) then t == s
       else t == s.(fds := s.fds[k := s.fds[k].(state := FD_FREE)], fdBm := ClearBit(s.fdBm, k))
  }

  /** cnread (src/fs.c:811-831), from a cursor below the size or of nothing. */
  ghost predicate ReadStep(s: Sys, k: nat, bytes: nat, t: Sys) {
    && k < |s.fds|
    && var f := s.fds[k];
       if f.state != FD_READ then t == s
       else
         && (f.cursor < f.inode.size || bytes == 0) && f.inode.size < TWO32
         && t == s.(fds := s.fds[k := f.(cursor := f.cursor + ReadLen(f, bytes))])
  }

  /** cnseek (src/fs.c:835-860). */
  ghost predicate SeekStep(s: Sys, k: nat, offset: nat, t: Sys) {
    && k < |s.fds| && InUse(s.fds[k]) && k < |t.fds|
    && var f := s.fds[k];
       && Room(s.m, f, f.cursor + offset)
       && t == s.(m := t.m, fds := s.fds[k := t.fds[k]])
       && exists f1 :: Resized(s.m, f, f.cursor + offset, t.m, f1) && t.fds[k] == f1.(cursor := offset)
  }

  /** Splice the buffer into the cache, advance, write the whole file (src/fs.c:888-891). */
  ghost predicate PutThrough(m1: Meta, f1: FdEntry, buf: seq<byte>, r: Meta, f': FdEntry) {
    && f1.cursor + |buf| <= |f1.data|
    && f' == f1.(data := Splice(f1.data, f1.cursor, buf), cursor := f1.cursor + |buf|)
    && Shape(m1.disk) && Mapped(f1.inode) && InData(BlockList(m1.disk, f1.inode))
    && |f'.data| == BLOCK_SIZE * f1.inode.blocks && r == Stored(m1, f1, f'.data)
  }

  /** cnwrite (src/fs.c:864-896). */
  ghost predicate WriteStep(s: Sys, k: nat, buf: seq<byte>, t: Sys) {
    && k < |s.fds| && k < |t.fds|
    && var f := s.fds[k];
       if f.state != FD_WRITE then t == s
       else
         && Room(s.m, f, f.cursor + |buf|)
         && t == s.(m := t.m, fds := s.fds[k := t.fds[k]])
         && exists m1, f1 :: Resized(s.m, f, f.cursor + |buf|, m1, f1) && PutThrough(m1, f1, buf, t.m, t.fds[k])
  }

  ghost predicate Step(s: Sys, op: Op, t: Sys)
    requires SysInv(s)
  {
    match op
    case Mkdir(path) => MkdirStep(s, path, t)
    case Rmdir(name) => RmdirStep(s, name, t)
    case Cd(path) => CdStep(s, path, t)
    case Creat(p, name) => CreatStep(s, p, name, t)
    case Open(p, name, mode) => OpenStep(s, p, name, mode, t)
    case Close(fd) => CloseStep(s, fd, t)
    case Read(fd, bytes) => ReadStep(s, fd, bytes, t)
    case Seek(fd, offset) => SeekStep(s, fd, offset, t)
    case Write(fd, buf) => WriteStep(s, fd, buf, t)
  }

  // ---- each call keeps the invariant ----

  lemma MkdirKeeps(s: Sys, path: Path, t: Sys)
    requires SysInv(s) && MkdirStep(s, path, t)
    ensures SysInv(t)
  {
    hide AllOk, InodeOk, IsDir, SameView, Partition, Tree, OwnMap, DirMap, FileSet, OwnedSet, NodeOf, Flushed,
         MkdirSteps, FdsOk;
    var p, name := MkdirWalk(Names(s.m), s.cwd, Via(path)), Last(path);
    if Lookup(Names(s.m), p, name).None? {
      var m1, i, m3, nb :| MkdirSteps(s.m, p, name, m1, i, m3, nb, t.m);
      InTree(s.m, p);
      MkdirMakes(s.m, p, name, m1, i, m3, nb, t.m);
      MadeKeepsFds(s, t, p, Entry(i, ITYPE_DIR, name), nb);
    }
  }

  lemma MadeKeepsFds(s: Sys, t: Sys, p: iptr, e: Entry, nb: iptr)
    requires SysInv(s) && DirMade(s.m, t.m, p, e, nb) && t == s.(m := t.m)
    ensures SysInv(t)
  {
    hide AllOk, InodeOk, IsDir, LeastFree, VolumeOk, SameView, Partition, Tree, OwnMap, DirMap, FileSet, OwnedSet,
         NodeOf, FdsOk;
    NoDirOpen(s.m, s.fds, s.fdBm, p);
    FdsKept(s.m, t.m, s.fds, s.fdBm, {p});
  }

  lemma FileMadeKeepsFds(s: Sys, t: Sys, p: iptr, e: Entry)
    requires SysInv(s) && FileMade(s.m, t.m, p, e) && t == s.(m := t.m)
    ensures SysInv(t)
  {
    hide AllOk, InodeOk, IsDir, SameView, Partition, Tree, OwnMap, DirMap, FileSet, OwnedSet, NodeOf, FdsOk;
    NoDirOpen(s.m, s.fds, s.fdBm, p);
    FdsKept(s.m, t.m, s.fds, s.fdBm, {p});
  }

  lemma GoneKeepsFds(s: Sys, t: Sys, e: Entry)
    requires SysInv(s) && DirGone(s.m, t.m, s.cwd, e) && t == s.(m := t.m)
    ensures SysInv(t)
  {
    hide AllOk, InodeOk, IsDir, SameView, Partition, Tree, OwnMap, DirMap, FileSet, OwnedSet, NodeOf, FdsOk;
    NoDirOpen(s.m, s.fds, s.fdBm, s.cwd);
    NoDirOpen(s.m, s.fds, s.fdBm, e.inode);
    FdsKept(s.m, t.m, s.fds, s.fdBm, {s.cwd, e.inode});
  }

  lemma CreatKeeps(s: Sys, p: iptr, name: Name, t: Sys)
    requires SysInv(s) && CreatStep(s, p, name, t)
    ensures SysInv(t)
  {
    hide AllOk, InodeOk, IsDir, SameView, Partition, Tree, OwnMap, DirMap, FileSet, OwnedSet, NodeOf, Flushed,
         CreatSteps, FdsOk;
    if Lookup(Names(s.m), p, name).None? {
      var m1, i :| CreatSteps(s.m, p, name, m1, i, t.m);
      CreatMakes(s.m, p, name, m1, i, t.m);
      FileMadeKeepsFds(s, t, p, Entry(i, ITYPE_FILE, name));
    }
  }

  /** The directory that cnrmdir is about to remove. */
  lemma FoundCanGo(s: Sys, name: Name)
    requires SysInv(s) && name != DOT && name != DOTDOT && Lookup(Names(s.m), s.cwd, name).Some?
    requires var i := Lookup(Names(s.m), s.cwd, name).value.inode; i in Names(s.m) && Names(s.m)[i].children == []
    ensures CanRmdir(s.m, s.cwd, Lookup(Names(s.m), s.cwd, name).value)
  {
    hide AllOk, InodeOk, IsDir, Partition, Tree, OwnMap, DirMap, FileSet, OwnedSet, NodeOf, Flushed, FdsOk, Lookup;
    var e := Lookup(Names(s.m), s.cwd, name).value;
    FoundIsListed(s.m, s.cwd, name);
    InTree(s.m, s.cwd);
    InTree(s.m, e.inode);
  }

  lemma RmdirKeeps(s: Sys, name: Name, t: Sys)
    requires SysInv(s) && RmdirStep(s, name, t)
    ensures SysInv(t)
  {
    hide AllOk, InodeOk, IsDir, SameView, Partition, Tree, OwnMap, DirMap, FileSet, OwnedSet, NodeOf, Flushed,
         RmdirSteps, FdsOk, Lookup;
    var found := Lookup(Names(s.m), s.cwd, name);
    if found.Some? && Names(s.m)[found.value.inode].children == [] {
      FoundCanGo(s, name);
      RmdirRemovesIt(s.m, s.cwd, found.value, t.m);
      GoneKeepsFds(s, t, found.value);
    }
  }

  lemma CdKeeps(s: Sys, path: Path, t: Sys)
    requires SysInv(s) && CdStep(s, path, t)
    ensures SysInv(t)
  {
    CdKeepsWhen(s, path, t);
  }

  /** Every cncd that has an outcome keeps the invariant exactly when every component that it reads names a directory or
      nothing, or the bytes of the first file on the way, read as records, lead on to a directory. */
  lemma CdKeepsWhen(s: Sys, path: Path, t: Sys)
    requires SysInv(s) && CdCode(s, path, t)
    ensures Start(s.cwd, path) in Names(s.m)
    ensures SysInv(t) <==> t.cwd in Names(s.m)
    ensures var nodes, start := Names(s.m), Start(s.cwd, path);
            SysInv(t) <==>
              OnlyDirs(nodes, start, path.comps) ||
              var met := FirstFile(nodes, start, path.comps);
              met.rest != [] && var l := Follow(s.m.disk, met.file, met.rest); l.At? && l.inode in nodes
  {
    CdFacts(s);
    MovedInv(s, t);
    LandsOnDirectory(s.m, s.cwd, path);
    hide SysInv, MetaOk, AllOk, DirMap, OnlyDirs, OpenPath, Follow, Reach, FirstFile, IsFile, Resolve;
  }

  lemma CdFacts(s: Sys)
    requires SysInv(s)
    ensures s.cwd in Names(s.m) && INODE_ROOTDIR in Names(s.m) && Sized(s.m) && AllOk(s.m.disk, Live(s.m))
            && MetaOk(s.m)
  {
    hide AllOk, Partition, DirMap, FileSet, Flushed, FdsOk;
    RootNamed(Names(s.m), FileSet(s.m.disk, Live(s.m)));
  }

  lemma MovedInv(s: Sys, t: Sys)
    requires SysInv(s) && (t == s || t == s.(cwd := t.cwd))
    ensures SysInv(t) <==> t.cwd in Names(s.m)
  {
    hide MetaOk, FdsOk, DirMap;
  }

  /** A file that is found, or was just made, and is not open can be opened. */
  lemma OpenedKeeps(s: Sys, i: iptr, mode: nat, t: Sys)
    requires SysInv(s) && IsFile(s.m, i) && FdOpened(s, i, mode, t)
    ensures SysInv(t)
  {
    hide AllOk, Tree, Partition, DirMap, Opened, FdsOk;
    OpenedOk(s.m, i, mode);
    OpenedFields(s.m, i, mode);
    FdTaken(s.m, s.fds, s.fdBm, FirstFree(s.fdBm), Opened(s.m, i, mode));
  }

  lemma OpenedFields(m: Meta, i: iptr, mode: nat)
    requires Shape(m.disk) && i < INODE_COUNT
    requires Mapped(InodeAt(m.disk, i)) && InData(BlockList(m.disk, InodeAt(m.disk, i)))
    ensures Opened(m, i, mode).state == mode && Opened(m, i, mode).inodeId == i
  {
  }

  lemma OpenKeeps(s: Sys, p: iptr, name: Name, mode: nat, t: Sys)
    requires SysInv(s) && OpenStep(s, p, name, mode, t)
    ensures SysInv(t)
  {
    hide AllOk, InodeOk, IsDir, SameView, Partition, Tree, OwnMap, DirMap, FileSet, OwnedSet, NodeOf, Flushed,
         CreatSteps, FdsOk, Lookup, IsFile, FdOpened;
    if Lookup(Names(s.m), p, name).Some? {
      FoundFile(s.m, p, name);
      OpenedKeeps(s, Lookup(Names(s.m), p, name).value.inode, mode, t);
    } else if mode == FD_WRITE {
      var m1, i :| Sized(t.m) && CreatSteps(s.m, p, name, m1, i, t.m) && FdOpened(s.(m := t.m), i, mode, t);
      CreatMakes(s.m, p, name, m1, i, t.m);
      FileMadeKeepsFds(s, s.(m := t.m), p, Entry(i, ITYPE_FILE, name));
      MadeIsFile(s.m, t.m, p, Entry(i, ITYPE_FILE, name));
      OpenedKeeps(s.(m := t.m), i, mode, t);
    }
  }

  /** cnopen keeps the invariant exactly when the name denotes a file, or nothing. */
  lemma OpenKeepsWhen(s: Sys, p: iptr, name: Name, mode: nat, t: Sys)
    requires SysInv(s) && OpenCode(s, p, name, mode, t)
    ensures SysInv(t) <==> NoDirectory(Names(s.m), p, name)
  {
    if NoDirectory(Names(s.m), p, name) {
      OpenKeeps(s, p, name, mode, t);
    } else {
      OpenedDirectory(s, Lookup(Names(s.m), p, name).value.inode, mode, t);
    }
  }

  lemma OpenedDirectory(s: Sys, i: iptr, mode: nat, t: Sys)
    requires SysInv(s) && i in Names(s.m) && FdOpened(s, i, mode, t)
    ensures !SysInv(t)
  {
    KindOfDirectory(s, i);
    hide SysInv, MetaOk, AllOk, DirMap, Load;
    if SysInv(t) {
      FdUsable(t, FirstFree(s.fdBm));
    }
  }

  lemma KindOfDirectory(s: Sys, i: iptr)
    requires SysInv(s) && i in Names(s.m)
    ensures Sized(s.m) && i < INODE_COUNT && InodeAt(s.m.disk, i).kind == ITYPE_DIR
  {
    hide AllOk, Tree, Partition, FileSet, Flushed, FdsOk;
    InTree(s.m, i);
  }

  lemma MadeIsFile(m: Meta, r: Meta, p: iptr, e: Entry)
    requires FileMade(m, r, p, e)
    ensures IsFile(r, e.inode)
  {
  }

  lemma CloseKeeps(s: Sys, k: nat, t: Sys)
    requires SysInv(s) && CloseStep(s, k, t)
    ensures SysInv(t)
  {
    hide AllOk, Partition, Tree, DirMap, FileSet, Flushed, FdsOk;
    if InUse(s.fds[k]) {
      FdGivenBack(s.m, s.fds, s.fdBm, k, t.fds[k]);
    }
  }

  lemma KeptSelf(m: Meta)
    requires MetaOk(m)
    ensures KeptBut(m, m, {})
  {
    hide SameView;
    SameViewRefl(m.disk, Live(m));
  }

  lemma FdUsable(s: Sys, k: nat)
    requires SysInv(s) && k < |s.fds| && InUse(s.fds[k])
    ensures MetaOk(s.m) && Sized(s.m) && FdOk(s.m, s.fds[k]) && |s.fds| == MAX_FD
            && s.fds[k].cursor <= s.fds[k].inode.size
  {
    hide AllOk, Partition, Tree, DirMap, FileSet, Flushed;
  }

  lemma ReadKeeps(s: Sys, k: nat, bytes: nat, t: Sys)
    requires SysInv(s) && ReadStep(s, k, bytes, t)
    ensures SysInv(t)
  {
    if s.fds[k].state == FD_READ { ReadKeepsWhen(s, k, bytes, t); }
  }

  /** cnread keeps the invariant exactly when it starts below the size or asks for nothing: at the end it moves the
      cursor beyond the file. */
  lemma ReadKeepsWhen(s: Sys, k: nat, bytes: nat, t: Sys)
    requires SysInv(s) && k < |s.fds| && s.fds[k].state == FD_READ
    requires t == s.(fds := s.fds[k := s.fds[k].(cursor := s.fds[k].cursor + ReadLen(s.fds[k], bytes))])
    ensures SysInv(t) <==> s.fds[k].cursor < s.fds[k].inode.size || bytes == 0
  {
    hide SysInv, FdOk, MetaOk;
    FdUsable(s, k);
    FdSmall(s.m, s.fds[k]);
    if s.fds[k].cursor < s.fds[k].inode.size || bytes == 0 {
      if bytes > 0 { ReadBelowSize(s.fds[k], bytes); }
      CursorInside(s, k, t);
    } else {
      assert ReadLen(s.fds[k], bytes) > 0;
      CursorOutside(s, k, t);
    }
  }

  lemma CursorInside(s: Sys, k: nat, t: Sys)
    requires SysInv(s) && k < |s.fds| && InUse(s.fds[k]) && k < |t.fds| && t.fds[k].cursor <= s.fds[k].inode.size
    requires t == s.(fds := s.fds[k := s.fds[k].(cursor := t.fds[k].cursor)])
    ensures SysInv(t)
  {
    hide AllOk, Partition, Tree, DirMap, FileSet, SameView, Flushed;
    KeptSelf(s.m);
    FdChanged(s.m, s.m, s.fds, s.fdBm, k, t.fds[k]);
  }

  lemma CursorOutside(s: Sys, k: nat, t: Sys)
    requires SysInv(s) && k < |s.fds| && InUse(s.fds[k]) && k < |t.fds| && t.fds[k].cursor > s.fds[k].inode.size
    requires t == s.(fds := s.fds[k := s.fds[k].(cursor := t.fds[k].cursor)])
    ensures !SysInv(t)
  {
    hide AllOk, Partition, Tree, DirMap, FileSet, SameView, Flushed;
    assert !FdOk(t.m, t.fds[k]);
  }

  lemma FdSmall(m: Meta, f: FdEntry)
    requires MetaOk(m) && FdOk(m, f)
    ensures f.inode.size <= |f.data| < TWO32 - 1
  {
    hide AllOk, Partition, Tree, DirMap, FileSet, SameView, Flushed;
    FdMapped(m, f);
  }

  /** One file rewritten through its descriptor. */
  lemma RewrittenKeeps(s: Sys, k: nat, t: Sys)
    requires SysInv(s) && k < MAX_FD && k < |t.fds| && InUse(s.fds[k])
    requires t == s.(m := t.m, fds := s.fds[k := t.fds[k]])
    requires OthersKept(s.m, t.m, s.fds[k].inodeId) && FdOk(t.m, t.fds[k])
    requires t.fds[k].state == s.fds[k].state && t.fds[k].inodeId == s.fds[k].inodeId
    ensures SysInv(t)
  {
    hide AllOk, Partition, Tree, DirMap, FileSet, SameView, Flushed, FdOk, Bits;
    FdChanged(s.m, t.m, s.fds, s.fdBm, k, t.fds[k]);
  }

  lemma SeekKeeps(s: Sys, k: nat, offset: nat, t: Sys)
    requires SysInv(s) && SeekStep(s, k, offset, t)
    ensures SysInv(t)
    ensures Sought(s.m, s.fds[k], t.m, t.fds[k], offset) && OthersKept(s.m, t.m, s.fds[k].inodeId)
  {
    hide SysInv, OthersKept, MetaOk, FdOk, Resized, Sought, ExtendedTo, Sized, Room;
    var f := s.fds[k];
    var f1 :| Resized(s.m, f, f.cursor + offset, t.m, f1) && t.fds[k] == f1.(cursor := offset);
    FdUsable(s, k);
    ResizedOk(s.m, f, f.cursor + offset, t.m, f1);
    SoughtFrom(s.m, f, t.m, f1, offset);
    SoughtFd(s.m, f, t.m, t.fds[k], offset);
    RewrittenKeeps(s, k, t);
  }

  lemma SoughtFd(m: Meta, f: FdEntry, r: Meta, f': FdEntry, offset: nat)
    requires Sought(m, f, r, f', offset)
    ensures Sized(r) && FdOk(r, f') && f'.state == f.state && f'.inodeId == f.inodeId
  {
  }

  lemma WriteKeeps(s: Sys, k: nat, buf: seq<byte>, t: Sys)
    requires SysInv(s) && WriteStep(s, k, buf, t)
    ensures SysInv(t)
    ensures s.fds[k].state == FD_WRITE ==>
              Written(s.m, s.fds[k], t.m, t.fds[k], buf) && OthersKept(s.m, t.m, s.fds[k].inodeId)
  {
    hide SysInv, OthersKept, MetaOk, FdOk, Resized, Written, ExtendedTo, Sized, PutThrough, Room;
    var f := s.fds[k];
    if f.state == FD_WRITE {
      var m1, f1 :| Resized(s.m, f, f.cursor + |buf|, m1, f1) && PutThrough(m1, f1, buf, t.m, t.fds[k]);
      FdUsable(s, k);
      ResizedOk(s.m, f, f.cursor + |buf|, m1, f1);
      PutThroughWrites(s.m, f, m1, f1, buf, t.m, t.fds[k]);
      RewrittenKeeps(s, k, t);
    }
  }

  lemma PutThroughWrites(m: Meta, f: FdEntry, m1: Meta, f1: FdEntry, buf: seq<byte>, r: Meta, f2: FdEntry)
    requires OthersKept(m, m1, f.inodeId) && ExtendedTo(m, f, m1, f1, f.cursor + |buf|) && f.cursor <= f.inode.size
    requires PutThrough(m1, f1, buf, r, f2)
    ensures OthersKept(m, r, f.inodeId) && Written(m, f, r, f2, buf)
    ensures Sized(r) && FdOk(r, f2) && f2.state == f.state && f2.inodeId == f.inodeId
  {
    hide OthersKept, ExtendedTo, FdOk, Stored;
    WriteOk(m, f, m1, f1, buf, f2);
  }

  /** Every call keeps the invariant. */
  lemma StepKeeps(s: Sys, op: Op, t: Sys)
    requires SysInv(s) && Step(s, op, t)
    ensures SysInv(t)
  {
    hide SysInv, MkdirStep, RmdirStep, CdStep, CreatStep, OpenStep, CloseStep, ReadStep, SeekStep, WriteStep;
    match op
    case Mkdir(path) => MkdirKeeps(s, path, t);
    case Rmdir(name) => RmdirKeeps(s, name, t);
    case Cd(path) => CdKeeps(s, path, t);
    case Creat(p, name) => CreatKeeps(s, p, name, t);
    case Open(p, name, mode) => OpenKeeps(s, p, name, mode, t);
    case Close(fd) => CloseKeeps(s, fd, t);
    case Read(fd, bytes) => ReadKeeps(s, fd, bytes, t);
    case Seek(fd, offset) => SeekKeeps(s, fd, offset, t);
    case Write(fd, buf) => WriteKeeps(s, fd, buf, t);
  }
}
